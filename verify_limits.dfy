/** The checker of the planner's output (verify_limits.py): it reads the
    printed `name=(v1 v2 ...)` lines into a dictionary, recomputes `Nt` and
    `Kt` for every row and asserts that the memory function named by the
    file fits the budget.  Each Python exception it can raise is a
    `VerifyError`. */
module VerifyLimits {
  import opened Wrappers
  import opened DecimalText
  import opened MemoryModel
  import opened ConfigSearch

  datatype VerifyError =
    | ValueError            // a line that is not `name=(ints)`
    | KeyError(name: string) // a column missing from the file
    | IndexError            // a column shorter than `A_heights`
    | ZeroDivisionError     // a grid extent of 0
    | AssertionError(row: nat) // a row over budget, or an unknown file name

  /** `[int(v) for v in ts]`, or the ValueError of the first bad token. */
  function ParseInts(ts: seq<string>): (r: Option<seq<int>>)
    ensures r.Some? ==> |r.value| == |ts|
    decreases |ts|
  {
    if ts == [] then Some([])
    else
      var before := ParseInts(ts[..|ts| - 1]);
      var last := ParseInt(ts[|ts| - 1]);
      if before.None? || last.None? then None else Some(before.value + [last.value])
  }

  /** One line: strip it, split at `=(` into exactly a name and a rest,
      drop the closing parentheses, convert the words. */
  function ParseLine(line: string): Result<(string, seq<int>), VerifyError> {
    var parts := SplitOn(Strip(line), "=(");
    if |parts| != 2 then Failure(ValueError)
    else
      var values := ParseInts(SplitWs(RStripChar(parts[1], ')')));
      if values.None? then Failure(ValueError) else Success((parts[0], values.value))
  }

  /** The `arrays` dictionary after the lines in order; a later line with the
      same name replaces an earlier one. */
  function Parse(lines: seq<string>): Result<map<string, seq<int>>, VerifyError>
    decreases |lines|
  {
    if lines == [] then Success(map[])
    else
      var before :- Parse(lines[..|lines| - 1]);
      var entry :- ParseLine(lines[|lines| - 1]);
      Success(before[entry.0 := entry.1])
  }

  /** `int(a / b)`: true division, truncated toward zero. */
  function TruncDiv(a: int, b: int): (q: int)
    requires b != 0
    ensures a >= 0 && b > 0 ==> q == a / b
  {
    var m := (if a < 0 then -a else a) / (if b < 0 then -b else b);
    if (a < 0) != (b < 0) then -m else m
  }

  /** `arrays[name][i]` for a non-negative `i`. */
  function Get(arrays: map<string, seq<int>>, name: string, i: nat): Result<int, VerifyError> {
    if name !in arrays then Failure(KeyError(name))
    else if i >= |arrays[name]| then Failure(IndexError)
    else Success(arrays[name][i])
  }

  /** The single file name each memory function is checked under. */
  function FileName(f: Format): string {
    match f
    case Gemm => "GEMM_params.txt"
    case Coo => "COO_params.txt"
    case Csc => "CSC_params.txt"
    case Csr => "CSR_params.txt"
    case Ellpack => "ELLPACK_params.txt"
  }

  /** The if/elif chain on the file name. */
  function FormatOfFile(name: string): Option<Format> {
    if name == "GEMM_params.txt" then Some(Gemm)
    else if name == "COO_params.txt" then Some(Coo)
    else if name == "CSC_params.txt" then Some(Csc)
    else if name == "CSR_params.txt" then Some(Csr)
    else if name == "ELLPACK_params.txt" then Some(Ellpack)
    else None
  }

  /** The chain recognises exactly the five file names. */
  lemma FormatOfFileName(name: string, f: Format)
    ensures FormatOfFile(name) == Some(f) <==> name == FileName(f)
  {
  }

  /** The body of the row loop for row `i`. */
  function CheckRow(fileName: string, arrays: map<string, seq<int>>, i: nat,
                    bound: BoundOracle, measure: MeasureOracle): Result<(), VerifyError>
  {
    var aHeight :- Get(arrays, "A_heights", i);
    var height :- Get(arrays, "grid_h", i);
    if height == 0 then Failure(ZeroDivisionError)
    else
      var Nt := TruncDiv(aHeight, height);
      var aWidth :- Get(arrays, "A_widths", i);
      var width :- Get(arrays, "grid_w", i);
      if width == 0 then Failure(ZeroDivisionError)
      else
        var Kt := TruncDiv(aWidth, width);
        var M :- Get(arrays, "M_w", i);
        var density :- Get(arrays, "A_densities", i);
        var f := FormatOfFile(fileName);
        if f.None? then Failure(AssertionError(i))
        else if MemoryUsed(f.value, bound, measure, Nt, Kt, M, density, width, height) <= (MEM - RESERVED) as real
        then Success(())
        else Failure(AssertionError(i))
  }

  /** Rows `0 .. n-1` in order: the first failing row's error, if any. */
  function CheckRows(fileName: string, arrays: map<string, seq<int>>, n: nat,
                     bound: BoundOracle, measure: MeasureOracle): Result<(), VerifyError>
    decreases n
  {
    if n == 0 then Success(())
    else
      var before := CheckRows(fileName, arrays, n - 1, bound, measure);
      if before.Failure? then before else CheckRow(fileName, arrays, n - 1, bound, measure)
  }

  /** verify_mem: the number of rows checked, or the exception raised. */
  function Verify(fileName: string, lines: seq<string>, bound: BoundOracle, measure: MeasureOracle): Result<nat, VerifyError> {
    var arrays :- Parse(lines);
    if "A_heights" !in arrays then Failure(KeyError("A_heights"))
    else
      var n := |arrays["A_heights"]|;
      var ok :- CheckRows(fileName, arrays, n, bound, measure);
      Success(n)
  }

  lemma {:induction false} ParseStops(lines: seq<string>, k: nat)
    requires k <= |lines| && Parse(lines[..k]).Failure?
    ensures Parse(lines) == Parse(lines[..k])
    decreases |lines|
  {
    if k < |lines| {
      assert lines[..|lines| - 1][..k] == lines[..k];
      ParseStops(lines[..|lines| - 1], k);
    } else {
      assert lines[..k] == lines;
    }
  }

  /** All rows pass exactly when each one does. */
  lemma {:induction false} CheckRowsAll(fileName: string, arrays: map<string, seq<int>>, n: nat,
                                        bound: BoundOracle, measure: MeasureOracle)
    ensures CheckRows(fileName, arrays, n, bound, measure).Success?
        <==> forall i | 0 <= i < n :: CheckRow(fileName, arrays, i, bound, measure).Success?
    decreases n
  {
    if n > 0 {
      CheckRowsAll(fileName, arrays, n - 1, bound, measure);
    }
  }

  /** Parsing one more line stores its entry, or fails with its error. */
  lemma ParseNext(lines: seq<string>, li: nat, arrays: map<string, seq<int>>)
    requires li < |lines| && Parse(lines[..li]) == Success(arrays)
    ensures var parsed := ParseLine(lines[li]);
      Parse(lines[..li + 1]) ==
        if parsed.Failure? then Failure(parsed.error) else Success(arrays[parsed.value.0 := parsed.value.1])
  {
    assert lines[..li + 1][..li] == lines[..li];
  }

  /** A line that does not parse ends the parse with its error. */
  lemma ParseFailsAt(lines: seq<string>, li: nat, arrays: map<string, seq<int>>)
    requires li < |lines| && Parse(lines[..li]) == Success(arrays) && ParseLine(lines[li]).Failure?
    ensures Parse(lines) == Failure(ParseLine(lines[li]).error)
  {
    ParseNext(lines, li, arrays);
    ParseStops(lines, li + 1);
  }

  /** The line loop of verify_mem, filling `arrays`. */
  method ParseFile(lines: seq<string>) returns (r: Result<map<string, seq<int>>, VerifyError>)
    ensures r == Parse(lines)
  {
    var arrays: map<string, seq<int>> := map[];
    var li := 0;
    while li < |lines|
      invariant 0 <= li <= |lines|
      invariant Parse(lines[..li]) == Success(arrays)
    {
      var parsed := ParseLine(lines[li]);
      if parsed.Failure? {
        ParseFailsAt(lines, li, arrays);
        return Failure(parsed.error);
      }
      ParseNext(lines, li, arrays);
      arrays := arrays[parsed.value.0 := parsed.value.1];
      li := li + 1;
    }
    assert lines[..li] == lines;
    r := Success(arrays);
  }

  /** The row loop of verify_mem. */
  method CheckAll(fileName: string, arrays: map<string, seq<int>>, numChecks: nat,
                  bound: BoundOracle, measure: MeasureOracle) returns (r: Result<(), VerifyError>)
    ensures r == CheckRows(fileName, arrays, numChecks, bound, measure)
  {
    var i := 0;
    while i < numChecks
      invariant 0 <= i <= numChecks
      invariant CheckRows(fileName, arrays, i, bound, measure) == Success(())
    {
      var row := CheckRow(fileName, arrays, i, bound, measure);
      if row.Failure? {
        CheckRowsFrom(fileName, arrays, i + 1, numChecks, bound, measure);
        return row;
      }
      i := i + 1;
    }
    r := Success(());
  }

  /** verify_mem: parse the lines, then check `len(arrays["A_heights"])` rows. */
  method VerifyMem(fileName: string, lines: seq<string>, bound: BoundOracle, measure: MeasureOracle)
    returns (r: Result<nat, VerifyError>)
    ensures r == Verify(fileName, lines, bound, measure)
  {
    var arrays := ParseFile(lines);
    if arrays.Failure? {
      return Failure(arrays.error);
    }
    if "A_heights" !in arrays.value {
      return Failure(KeyError("A_heights"));
    }
    var numChecks := |arrays.value["A_heights"]|;
    var checked := CheckAll(fileName, arrays.value, numChecks, bound, measure);
    if checked.Failure? {
      return Failure(checked.error);
    }
    r := Success(numChecks);
  }

  /** A failure among the first `k` rows is the failure of all `n`. */
  lemma {:induction false} CheckRowsFrom(fileName: string, arrays: map<string, seq<int>>, k: nat, n: nat,
                                         bound: BoundOracle, measure: MeasureOracle)
    requires k <= n && CheckRows(fileName, arrays, k, bound, measure).Failure?
    ensures CheckRows(fileName, arrays, n, bound, measure) == CheckRows(fileName, arrays, k, bound, measure)
    decreases n
  {
    if k < n {
      CheckRowsFrom(fileName, arrays, k, n - 1, bound, measure);
    }
  }

  /** Under a file name other than the five, no row passes. */
  lemma UnknownFileRow(fileName: string, arrays: map<string, seq<int>>, i: nat, bound: BoundOracle, measure: MeasureOracle)
    requires FormatOfFile(fileName).None?
    ensures CheckRow(fileName, arrays, i, bound, measure).Failure?
  {
  }

  /** A file name other than the five fails as soon as there is a row to
      check; with no rows it passes. */
  lemma UnknownFile(fileName: string, lines: seq<string>, bound: BoundOracle, measure: MeasureOracle)
    requires FormatOfFile(fileName).None?
    ensures Verify(fileName, lines, bound, measure).Success?
        <==> Parse(lines).Success? && "A_heights" in Parse(lines).value && Parse(lines).value["A_heights"] == []
  {
    var p := Parse(lines);
    if p.Success? && "A_heights" in p.value {
      var n := |p.value["A_heights"]|;
      CheckRowsAll(fileName, p.value, n, bound, measure);
      if n > 0 {
        UnknownFileRow(fileName, p.value, 0, bound, measure);
      }
    }
  }

  /** `[int(v) for v in [str(x) for x in vals]] == vals`. */
  lemma {:induction false} ParseNumerals(vals: seq<nat>)
    ensures ParseInts(Numerals(vals)) == Some(vals)
    decreases |vals|
  {
    if vals != [] {
      var init := vals[..|vals| - 1];
      ParseNumerals(init);
      assert Numerals(vals)[..|vals| - 1] == Numerals(init);
      ParseNatToString(vals[|vals| - 1]);
      assert init + [vals[|vals| - 1]] == vals;
    }
  }

  /** Parsing a printed line gives back its name and its values. */
  lemma ParsePrintedLine(name: string, vals: seq<nat>)
    requires name != [] && !IsSpace(name[0]) && '=' !in name
    ensures ParseLine(PrintedLine(name, vals)) == Success((name, vals))
  {
    var j := Join(Numerals(vals), " ");
    PrintedLineStrip(name, vals);
    PrintedLineSplit(name, vals);
    PrintedValues(vals);
    ParseLineSteps(PrintedLine(name, vals), name, j + ")", j, vals);
  }

  /** Stripping a printed line removes exactly its newline. */
  lemma PrintedLineStrip(name: string, vals: seq<nat>)
    requires name != [] && !IsSpace(name[0])
    ensures Strip(PrintedLine(name, vals)) == name + "=(" + (Join(Numerals(vals), " ") + ")")
  {
    var body := name + "=(" + (Join(Numerals(vals), " ") + ")");
    assert PrintedLine(name, vals) == body + "\n";
    assert body[0] == name[0];
    StripLine(body);
  }

  /** A printed line splits at its one `=(`. */
  lemma PrintedLineSplit(name: string, vals: seq<nat>)
    requires '=' !in name
    ensures var tail := Join(Numerals(vals), " ") + ")";
      SplitOn(name + "=(" + tail, "=(") == [name, tail]
  {
    NumeralText(vals);
    SplitOnOnce(name, "=(", Join(Numerals(vals), " ") + ")");
  }

  /** The values part of a printed line converts back to the values. */
  lemma PrintedValues(vals: seq<nat>)
    ensures var j := Join(Numerals(vals), " ");
      RStripChar(j + ")", ')') == j && ParseInts(SplitWs(j)) == Some(vals)
  {
    var j := Join(Numerals(vals), " ");
    NumeralText(vals);
    RStripCharOnce(j, ')');
    SplitWsJoin(Numerals(vals));
    ParseNumerals(vals);
  }

  /** The printed numerals hold only digits and spaces, so no `=` and no `)`. */
  lemma NumeralText(vals: seq<nat>)
    ensures var j := Join(Numerals(vals), " ");
      && '=' !in j + ")"
      && (j == [] || j[|j| - 1] != ')')
    ensures forall k | 0 <= k < |vals| :: Numerals(vals)[k] != [] && NoSpace(Numerals(vals)[k])
  {
    var ts := Numerals(vals);
    var j := Join(ts, " ");
    JoinDigits(ts);
    var tail := j + ")";
    forall i | 0 <= i < |tail| ensures tail[i] != '=' {
      if i < |j| {
        assert tail[i] == j[i];
      }
    }
    forall k | 0 <= k < |vals| ensures ts[k] != [] && NoSpace(ts[k]) {
      assert AllDigits(ts[k]);
    }
  }

  /** `parse_line` step by step: strip, split at `=(`, drop the `)`, split
      at whitespace, convert. */
  lemma ParseLineSteps(line: string, name: string, tail: string, j: string, vals: seq<int>)
    requires Strip(line) == name + "=(" + tail
    requires SplitOn(name + "=(" + tail, "=(") == [name, tail]
    requires RStripChar(tail, ')') == j && ParseInts(SplitWs(j)) == Some(vals)
    ensures ParseLine(line) == Success((name, vals))
  {
  }

  /** The dictionary after inserting `entries` in order. */
  function Updates(entries: seq<(string, seq<int>)>): map<string, seq<int>>
    decreases |entries|
  {
    if entries == [] then map[]
    else Updates(entries[..|entries| - 1])[entries[|entries| - 1].0 := entries[|entries| - 1].1]
  }

  /** Lines that each parse build the dictionary of their entries. */
  lemma {:induction false} ParseEntries(lines: seq<string>, entries: seq<(string, seq<int>)>)
    requires |lines| == |entries| && forall k | 0 <= k < |lines| :: ParseLine(lines[k]) == Success(entries[k])
    ensures Parse(lines) == Success(Updates(entries))
    decreases |lines|
  {
    if lines != [] {
      var n := |lines| - 1;
      ParseEntries(lines[..n], entries[..n]);
    }
  }

  /** An entry not overwritten later can be read back. */
  lemma {:induction false} UpdatesLookup(entries: seq<(string, seq<int>)>, k: nat)
    requires k < |entries| && forall j | k < j < |entries| :: entries[j].0 != entries[k].0
    ensures entries[k].0 in Updates(entries) && Updates(entries)[entries[k].0] == entries[k].1
    decreases |entries|
  {
    var n := |entries| - 1;
    if k < n {
      UpdatesLookup(entries[..n], k);
    }
  }

  /** The entries of the six printed lines. */
  function ColumnEntries(plans: seq<Plan>): (es: seq<(string, seq<int>)>)
    ensures |es| == 6 && forall k | 0 <= k < 6 :: es[k] == (COLUMN_NAMES[k], Column(plans, k))
  {
    seq(6, k requires 0 <= k < 6 => (COLUMN_NAMES[k], Column(plans, k)))
  }

  /** The dictionary the six printed lines parse to. */
  function Columns(plans: seq<Plan>): map<string, seq<int>> {
    Updates(ColumnEntries(plans))
  }

  lemma ColumnNamesPlain()
    ensures forall k | 0 <= k < 6 :: COLUMN_NAMES[k] != [] && !IsSpace(COLUMN_NAMES[k][0]) && '=' !in COLUMN_NAMES[k]
    ensures forall i, j | 0 <= i < j < 6 :: COLUMN_NAMES[i] != COLUMN_NAMES[j]
  {
    assert COLUMN_NAMES[3][5] != COLUMN_NAMES[4][5];
  }

  /** Every column of the parsed dictionary is the printed column. */
  lemma ColumnLookup(plans: seq<Plan>, k: nat)
    requires k < 6
    ensures COLUMN_NAMES[k] in Columns(plans) && Columns(plans)[COLUMN_NAMES[k]] == Column(plans, k)
  {
    ColumnNamesPlain();
    UpdatesLookup(ColumnEntries(plans), k);
  }

  /** Reading back the printed table recovers every column of `f_out`. */
  lemma ParsePrinted(plans: seq<Plan>)
    ensures Parse(PrintedLines(plans)) == Success(Columns(plans))
  {
    var lines := PrintedLines(plans);
    var entries := ColumnEntries(plans);
    ColumnNamesPlain();
    forall k | 0 <= k < 6 ensures ParseLine(lines[k]) == Success(entries[k]) {
      ParsePrintedLine(COLUMN_NAMES[k], Column(plans, k));
    }
    ParseEntries(lines, entries);
  }

  /** An admitted row passes the check: the recomputed `Nt` and `Kt` are the
      planner's, and its strict bound implies the checker's non-strict one. */
  lemma RowPasses(f: Format, bound: BoundOracle, measure: MeasureOracle, plans: seq<Plan>, i: nat)
    requires i < |plans| && Admitted(f, bound, measure, plans[i])
    ensures CheckRow(FileName(f), Columns(plans), i, bound, measure) == Success(())
  {
    var p := plans[i];
    ColumnLookup(plans, 0);
    ColumnLookup(plans, 1);
    ColumnLookup(plans, 2);
    ColumnLookup(plans, 3);
    ColumnLookup(plans, 4);
    ColumnLookup(plans, 5);
    FormatOfFileName(FileName(f), f);
    var arrays := Columns(plans);
    assert Get(arrays, "A_heights", i) == Success(p.N as int);
    assert Get(arrays, "grid_h", i) == Success(p.h as int);
    assert Get(arrays, "A_widths", i) == Success(p.K as int);
    assert Get(arrays, "grid_w", i) == Success(p.w as int);
    assert Get(arrays, "M_w", i) == Success(p.M as int);
    assert Get(arrays, "A_densities", i) == Success(p.density as int);
    assert TruncDiv(p.N, p.h) == p.N / p.h && TruncDiv(p.K, p.w) == p.K / p.w;
  }

  /** Printing admitted rows and checking the printout passes every row. */
  lemma VerifyAdmitted(f: Format, bound: BoundOracle, measure: MeasureOracle, plans: seq<Plan>)
    requires forall p | p in plans :: Admitted(f, bound, measure, p)
    ensures Verify(FileName(f), PrintedLines(plans), bound, measure) == Success(|plans|)
  {
    ParsePrinted(plans);
    ColumnLookup(plans, 0);
    var arrays := Columns(plans);
    forall i | 0 <= i < |plans| ensures CheckRow(FileName(f), arrays, i, bound, measure).Success? {
      RowPasses(f, bound, measure, plans, i);
    }
    CheckRowsAll(FileName(f), arrays, |plans|, bound, measure);
  }

  /** The checker accepts whatever the planner prints: a sweep that
      completes yields a file that passes verify_mem under its format's name,
      with one checked row per density and shape. */
  lemma SearchVerifies(f: Format, bound: BoundOracle, measure: MeasureOracle, ds: seq<nat>, shapes: seq<(nat, nat)>)
    requires Sweep(RowsOf(PlannerOf(f, bound, measure), shapes), ds).Success?
    ensures var plans := Sweep(RowsOf(PlannerOf(f, bound, measure), shapes), ds).value;
      Verify(FileName(f), PrintedLines(plans), bound, measure) == Success(|ds| * |shapes|)
  {
    SweepAdmitted(f, bound, measure, ds, shapes);
    VerifyAdmitted(f, bound, measure, Sweep(RowsOf(PlannerOf(f, bound, measure), shapes), ds).value);
  }
}
