/** Padding of ragged CSV files (add_padding.py).

    A file is a sequence of lines, each line the comma-separated fields it
    holds, `None` for a field pandas reads as NaN.  `pad_file` reads the file
    as a frame as wide as its longest line, drops the last column when it is
    missing in every line, prints the width, replaces every missing cell with
    the sentinel -1, casts to the requested type and writes the frame. */
module CsvPadding {
  import opened Wrappers
  import opened DecimalText
  import opened Arith

  /** One line of a file: `line.split(",")` always has at least one field. */
  type Line = l: seq<Option<real>> | |l| >= 1 witness [None]

  /** The file system the scripts read from: file name to lines. */
  type Files = map<string, seq<Line>>

  /** The `dtype` a frame is cast to before it is written. */
  datatype Dtype = Float | Int

  /** The default `replace` of pad_file, the only one ever used. */
  const SENTINEL: real := -1.0

  /** A missing input file, or an empty one (`max([])` raises ValueError). */
  datatype PadError = FileNotFound(name: string) | EmptyFile(name: string)

  /** `max(col_count)`: the largest number of fields on a line. */
  function MaxFields(lines: seq<Line>): (m: nat)
    requires |lines| > 0
    ensures forall i | 0 <= i < |lines| :: |lines[i]| <= m
    ensures exists i | 0 <= i < |lines| :: |lines[i]| == m
    decreases |lines|
  {
    if |lines| == 1 then |lines[0]|
    else
      var rest := MaxFields(lines[..|lines| - 1]);
      var last := |lines[|lines| - 1]|;
      if last > rest then last else rest
  }

  /** Column `c` is missing (NaN) on every line. */
  predicate ColumnMissing(lines: seq<Line>, c: nat) {
    forall i | 0 <= i < |lines| :: c >= |lines[i]| || lines[i][c].None?
  }

  /** `astype(dtype)`: a float cast to int is truncated toward zero. */
  function Cast(v: real, dtype: Dtype): real {
    match dtype
    case Float => v
    case Int => TruncReal(v) as real
  }

  /** The sentinel survives both casts. */
  lemma CastSentinel(dtype: Dtype)
    ensures Cast(SENTINEL, dtype) == SENTINEL
  {
  }

  /** A pandas frame whose cells the script changes in place. */
  class Frame {
    var cells: seq<seq<Option<real>>>
    var width: nat

    ghost predicate Valid()
      reads this
    {
      forall i | 0 <= i < |cells| :: |cells[i]| == width
    }

    /** `pd.read_csv(..., names=range(names), skip_blank_lines=False)`:
        every line becomes a row, short lines padded with NaN. */
    constructor ReadCsv(lines: seq<Line>, names: nat)
      requires forall i | 0 <= i < |lines| :: |lines[i]| <= names
      ensures Valid() && width == names && |cells| == |lines|
      ensures forall i, j | 0 <= i < |lines| && 0 <= j < names ::
        cells[i][j] == if j < |lines[i]| then lines[i][j] else None
    {
      width := names;
      cells := seq(|lines|, i requires 0 <= i < |lines| => lines[i] + seq(names - |lines[i]|, _ => None));
    }

    /** `col_is_nan(df[c])`. */
    predicate ColIsNan(c: nat)
      reads this
      requires Valid() && c < width
    {
      forall i | 0 <= i < |cells| :: cells[i][c].None?
    }

    /** `df.drop(df.columns[-1], axis=1, inplace=True)`. */
    method DropLast()
      requires Valid() && width > 0
      modifies this
      ensures Valid() && width == old(width) - 1 && |cells| == |old(cells)|
      ensures forall i, j | 0 <= i < |cells| && 0 <= j < width :: cells[i][j] == old(cells)[i][j]
    {
      var c, w := cells, width - 1;
      cells := seq(|c|, i requires 0 <= i < |c| && |c[i]| >= w => c[i][..w]);
      width := w;
    }

    /** `df.replace(np.nan, replace).astype(dtype)`: a new table. */
    function Filled(replace: real, dtype: Dtype): seq<seq<real>>
      reads this
    {
      FillCells(cells, replace, dtype)
    }
  }

  /** Every missing cell replaced, then every cell cast. */
  function FillCells(c: seq<seq<Option<real>>>, replace: real, dtype: Dtype): (t: seq<seq<real>>)
    ensures |t| == |c| && forall i | 0 <= i < |t| :: |t[i]| == |c[i]|
    ensures forall i, j | 0 <= i < |t| && 0 <= j < |c[i]| ::
      t[i][j] == Cast(if c[i][j].Some? then c[i][j].value else replace, dtype)
  {
    seq(|c|, i requires 0 <= i < |c| =>
      seq(|c[i]|, j requires 0 <= j < |c[i]| => Cast(if c[i][j].Some? then c[i][j].value else replace, dtype)))
  }

  /** The cells read from `lines`, `width` columns wide, short lines padded with NaN. */
  predicate Widened(c: seq<seq<Option<real>>>, lines: seq<Line>, width: nat) {
    && |c| == |lines| && (forall i | 0 <= i < |c| :: |c[i]| == width)
    && forall i, j | 0 <= i < |c| && 0 <= j < width :: c[i][j] == if j < |lines[i]| then lines[i][j] else None
  }

  /** The width pad_file prints (and, in the second copy, returns). */
  function PaddedWidth(lines: seq<Line>): nat
    requires |lines| > 0
  {
    var m := MaxFields(lines);
    if ColumnMissing(lines, m - 1) then m - 1 else m
  }

  /** Output cell `j` of a line: its value if present, else the sentinel, cast. */
  function OutCell(line: Line, j: nat, dtype: Dtype): real {
    Cast(if j < |line| && line[j].Some? then line[j].value else SENTINEL, dtype)
  }

  /** The written table: one row per line, `width` cells each. */
  function Padded(lines: seq<Line>, width: nat, dtype: Dtype): (t: seq<seq<real>>)
    ensures |t| == |lines| && forall i | 0 <= i < |t| :: |t[i]| == width
    ensures forall i, j | 0 <= i < |t| && 0 <= j < width :: t[i][j] == OutCell(lines[i], j, dtype)
  {
    seq(|lines|, i requires 0 <= i < |lines| => seq(width, j requires 0 <= j < width => OutCell(lines[i], j, dtype)))
  }

  /** pad_file on `fs[input]`: the width and the written table. */
  function Pad(fs: Files, input: string, dtype: Dtype): Result<(nat, seq<seq<real>>), PadError> {
    if input !in fs then Failure(FileNotFound(input))
    else if fs[input] == [] then Failure(EmptyFile(input))
    else
      var w := PaddedWidth(fs[input]);
      Success((w, Padded(fs[input], w, dtype)))
  }

  /** pad_file, through the frame operations of the script. */
  method PadFile(fs: Files, input: string, dtype: Dtype) returns (r: Result<(nat, seq<seq<real>>), PadError>)
    ensures r == Pad(fs, input, dtype)
  {
    if input !in fs {
      return Failure(FileNotFound(input));
    }
    var lines := fs[input];
    if |lines| == 0 {
      return Failure(EmptyFile(input));
    }
    var length := MaxFields(lines);
    var df := new Frame.ReadCsv(lines, length);
    ghost var read := df.cells;
    var drop := df.ColIsNan(length - 1);
    assert drop <==> ColumnMissing(lines, length - 1);
    if drop {
      length := length - 1;
      df.DropLast();
    }
    var table := df.Filled(SENTINEL, dtype);
    assert length == PaddedWidth(lines);
    assert Widened(df.cells, lines, length) by {
      forall i, j | 0 <= i < |lines| && 0 <= j < length
        ensures df.cells[i][j] == if j < |lines[i]| then lines[i][j] else None
      {
        assert df.cells[i][j] == read[i][j];
      }
    }
    FillWidened(df.cells, lines, length, dtype);
    r := Success((length, table));
  }

  /** Filling the widened cells gives the padded table. */
  lemma FillWidened(c: seq<seq<Option<real>>>, lines: seq<Line>, width: nat, dtype: Dtype)
    requires Widened(c, lines, width)
    ensures FillCells(c, SENTINEL, dtype) == Padded(lines, width, dtype)
  {
    var t, spec := FillCells(c, SENTINEL, dtype), Padded(lines, width, dtype);
    forall i | 0 <= i < |lines|
      ensures t[i] == spec[i]
    {
    }
  }

  /** The width is the longest line, or one less exactly when the last
      column is missing everywhere: at most one column is dropped. */
  lemma PaddedWidthDrop(lines: seq<Line>)
    requires |lines| > 0
    ensures var m := MaxFields(lines);
      && (PaddedWidth(lines) == m || PaddedWidth(lines) == m - 1)
      && (PaddedWidth(lines) == m - 1 <==> forall i | 0 <= i < |lines| :: |lines[i]| < m || lines[i][m - 1].None?)
  {
  }

  /** No present value is lost: every present field lies inside the printed
      width and is written at its own row and column. */
  lemma PadKeepsValues(lines: seq<Line>, dtype: Dtype, i: nat, j: nat)
    requires |lines| > 0 && i < |lines| && j < |lines[i]| && lines[i][j].Some?
    ensures j < PaddedWidth(lines)
    ensures Padded(lines, PaddedWidth(lines), dtype)[i][j] == Cast(lines[i][j].value, dtype)
  {
    var m := MaxFields(lines);
    if j == m - 1 {
      assert !ColumnMissing(lines, m - 1);
    }
  }

  /** Every missing cell inside the width is written as the sentinel. */
  lemma PadFillsMissing(lines: seq<Line>, dtype: Dtype, i: nat, j: nat)
    requires |lines| > 0 && i < |lines| && j < PaddedWidth(lines)
    requires j >= |lines[i]| || lines[i][j].None?
    ensures Padded(lines, PaddedWidth(lines), dtype)[i][j] == SENTINEL
  {
    CastSentinel(dtype);
  }

  /** A labelled step of a pad_*_grid function: the label it prints, the
      suffixes of the file it pads and of the file it writes, and the type
      it casts to. */
  datatype Step = Step(title: string, input: string, output: string, dtype: Dtype)

  /** What a pad_*_grid run prints, one element per printed line, and the
      files it writes. */
  datatype Run = Run(stdout: seq<string>, written: seq<(string, seq<seq<real>>)>)

  const CSC_STEPS: seq<Step> :=
    [Step("Value length:", "_val.csv", "_val_pad.csv", Float), Step("Row index length:", "_row_idx.csv", "_row_idx_pad.csv", Int),
     Step("Column pointer length:", "_col_ptr.csv", "_col_ptr_pad.csv", Int)]
  const CSR_STEPS: seq<Step> :=
    [Step("Value length:", "_val.csv", "_val_pad.csv", Float), Step("Column index length:", "_col_idx.csv", "_col_idx_pad.csv", Int),
     Step("Row pointer length:", "_row_ptr.csv", "_row_ptr_pad.csv", Int)]
  const CUSTOM_STEPS: seq<Step> :=
    [Step("Value length:", "_val.csv", "_val_pad.csv", Float), Step("Column length:", "_x.csv", "_x_pad.csv", Int), Step("Row length:", "_y.csv", "_y_pad.csv", Int)]
  const ELLPACK_STEPS: seq<Step> :=
    [Step("Value length:", "_val.csv", "_val_pad.csv", Float), Step("Indices length:", "_indices.csv", "_indices_pad.csv", Int)]

  const BAD_FORMAT: string := "Incorrect format type. Did not add padded arrays."

  /** The steps in order: each prints its label, then pad_file prints the
      width and writes the padded file; the first failure ends the run. */
  function GridRun(fs: Files, prefix: string, steps: seq<Step>): Result<Run, PadError>
    decreases |steps|
  {
    if steps == [] then Success(Run([], []))
    else
      var before :- GridRun(fs, prefix, steps[..|steps| - 1]);
      var s := steps[|steps| - 1];
      var padded :- Pad(fs, prefix + s.input, s.dtype);
      Success(Run(before.stdout + [s.title, NatToString(padded.0)],
                  before.written + [(prefix + s.output, padded.1)]))
  }

  /** A completed run prints, step by step, the label and then the width of
      that step's file, and writes that file's padded table. */
  lemma {:induction false} GridRunOrder(fs: Files, prefix: string, steps: seq<Step>)
    requires GridRun(fs, prefix, steps).Success?
    ensures var run := GridRun(fs, prefix, steps).value;
      && |run.stdout| == 2 * |steps| && |run.written| == |steps|
      && forall k | 0 <= k < |steps| :: StepShown(fs, prefix, steps[k], run, k)
    decreases |steps|
  {
    if steps != [] {
      var n := |steps| - 1;
      GridRunOrder(fs, prefix, steps[..n]);
      var before := GridRun(fs, prefix, steps[..n]).value;
      var run := GridRun(fs, prefix, steps).value;
      var st := steps[n];
      var padded := Pad(fs, prefix + st.input, st.dtype).value;
      assert run == Run(before.stdout + [st.title, NatToString(padded.0)], before.written + [(prefix + st.output, padded.1)]);
      forall k | 0 <= k < |steps|
        ensures StepShown(fs, prefix, steps[k], run, k)
      {
        if k < n {
          assert StepShown(fs, prefix, steps[..n][k], before, k);
          assert run.stdout[2 * k] == before.stdout[2 * k] && run.stdout[2 * k + 1] == before.stdout[2 * k + 1];
          assert run.written[k] == before.written[k];
        }
      }
    }
  }

  /** Step `k` of a run printed its label and its file's width, and wrote its
      padded table. */
  predicate StepShown(fs: Files, prefix: string, st: Step, run: Run, k: nat) {
    var input := prefix + st.input;
    && input in fs && fs[input] != []
    && 2 * k + 1 < |run.stdout| && k < |run.written|
    && run.stdout[2 * k] == st.title
    && run.stdout[2 * k + 1] == NatToString(PaddedWidth(fs[input]))
    && run.written[k] == (prefix + st.output, Padded(fs[input], PaddedWidth(fs[input]), st.dtype))
  }

  /** One step: print the label, pad the file, print its width. */
  method PadStep(fs: Files, prefix: string, s: Step, run: Run) returns (r: Result<Run, PadError>)
    ensures r == (var padded := Pad(fs, prefix + s.input, s.dtype);
      if padded.Failure? then Failure(padded.error)
      else Success(Run(run.stdout + [s.title, NatToString(padded.value.0)],
                       run.written + [(prefix + s.output, padded.value.1)])))
  {
    var padded := PadFile(fs, prefix + s.input, s.dtype);
    if padded.Failure? {
      return Failure(padded.error);
    }
    var (length, table) := padded.value;
    r := Success(Run(run.stdout + [s.title, NatToString(length)],
                     run.written + [(prefix + s.output, table)]));
  }

  lemma GridRunSnoc(fs: Files, prefix: string, steps: seq<Step>, k: nat)
    requires k < |steps|
    ensures GridRun(fs, prefix, steps[..k + 1]) ==
      (var before := GridRun(fs, prefix, steps[..k]);
       if before.Failure? then before
       else
         var padded := Pad(fs, prefix + steps[k].input, steps[k].dtype);
         if padded.Failure? then Failure(padded.error)
         else Success(Run(before.value.stdout + [steps[k].title, NatToString(padded.value.0)],
                          before.value.written + [(prefix + steps[k].output, padded.value.1)])))
  {
    assert steps[..k + 1][..k] == steps[..k];
  }

  /** pad_csc_grid; `replace` is accepted and never passed on. */
  method PadCscGrid(fs: Files, prefix: string, replace: real) returns (r: Result<Run, PadError>)
    ensures r == GridRun(fs, prefix, CSC_STEPS)
  {
    var run := Run([], []);
    assert CSC_STEPS[..0] == [];
    GridRunSnoc(fs, prefix, CSC_STEPS, 0);
    var step := PadStep(fs, prefix, CSC_STEPS[0], run);
    if step.Failure? { return step; }
    GridRunSnoc(fs, prefix, CSC_STEPS, 1);
    step := PadStep(fs, prefix, CSC_STEPS[1], step.value);
    if step.Failure? { return step; }
    GridRunSnoc(fs, prefix, CSC_STEPS, 2);
    assert CSC_STEPS[..3] == CSC_STEPS;
    r := PadStep(fs, prefix, CSC_STEPS[2], step.value);
  }

  /** pad_csr_grid; `replace` is accepted and never passed on. */
  method PadCsrGrid(fs: Files, prefix: string, replace: real) returns (r: Result<Run, PadError>)
    ensures r == GridRun(fs, prefix, CSR_STEPS)
  {
    var run := Run([], []);
    assert CSR_STEPS[..0] == [];
    GridRunSnoc(fs, prefix, CSR_STEPS, 0);
    var step := PadStep(fs, prefix, CSR_STEPS[0], run);
    if step.Failure? { return step; }
    GridRunSnoc(fs, prefix, CSR_STEPS, 1);
    step := PadStep(fs, prefix, CSR_STEPS[1], step.value);
    if step.Failure? { return step; }
    GridRunSnoc(fs, prefix, CSR_STEPS, 2);
    assert CSR_STEPS[..3] == CSR_STEPS;
    r := PadStep(fs, prefix, CSR_STEPS[2], step.value);
  }

  /** pad_custom_grid; `replace` is accepted and never passed on. */
  method PadCustomGrid(fs: Files, prefix: string, replace: real) returns (r: Result<Run, PadError>)
    ensures r == GridRun(fs, prefix, CUSTOM_STEPS)
  {
    var run := Run([], []);
    assert CUSTOM_STEPS[..0] == [];
    GridRunSnoc(fs, prefix, CUSTOM_STEPS, 0);
    var step := PadStep(fs, prefix, CUSTOM_STEPS[0], run);
    if step.Failure? { return step; }
    GridRunSnoc(fs, prefix, CUSTOM_STEPS, 1);
    step := PadStep(fs, prefix, CUSTOM_STEPS[1], step.value);
    if step.Failure? { return step; }
    GridRunSnoc(fs, prefix, CUSTOM_STEPS, 2);
    assert CUSTOM_STEPS[..3] == CUSTOM_STEPS;
    r := PadStep(fs, prefix, CUSTOM_STEPS[2], step.value);
  }

  /** pad_ellpack_grid; `replace` is accepted and never passed on. */
  method PadEllpackGrid(fs: Files, prefix: string, replace: real) returns (r: Result<Run, PadError>)
    ensures r == GridRun(fs, prefix, ELLPACK_STEPS)
  {
    var run := Run([], []);
    assert ELLPACK_STEPS[..0] == [];
    GridRunSnoc(fs, prefix, ELLPACK_STEPS, 0);
    var step := PadStep(fs, prefix, ELLPACK_STEPS[0], run);
    if step.Failure? { return step; }
    GridRunSnoc(fs, prefix, ELLPACK_STEPS, 1);
    assert ELLPACK_STEPS[..2] == ELLPACK_STEPS;
    r := PadStep(fs, prefix, ELLPACK_STEPS[1], step.value);
  }

  /** The steps main runs for a format type, if it knows the type. */
  function StepsOf(fmtType: int): Option<seq<Step>> {
    if fmtType == 0 then Some(CSC_STEPS)
    else if fmtType == 1 then Some(CSR_STEPS)
    else if fmtType == 2 then Some(CUSTOM_STEPS)
    else if fmtType == 3 then Some(ELLPACK_STEPS)
    else None
  }

  /** main with the prefix "tmp". */
  method PadMain(fs: Files, fmtType: int) returns (r: Result<Run, PadError>)
    ensures StepsOf(fmtType).Some? ==> r == GridRun(fs, "tmp", StepsOf(fmtType).value)
    ensures StepsOf(fmtType).None? ==> r == Success(Run([BAD_FORMAT], []))
  {
    if fmtType == 0 {
      r := PadCscGrid(fs, "tmp", SENTINEL);
    } else if fmtType == 1 {
      r := PadCsrGrid(fs, "tmp", SENTINEL);
    } else if fmtType == 2 {
      r := PadCustomGrid(fs, "tmp", SENTINEL);
    } else if fmtType == 3 {
      r := PadEllpackGrid(fs, "tmp", SENTINEL);
    } else {
      r := Success(Run([BAD_FORMAT], []));
    }
  }

  /** main knows exactly the types 0 to 3; any other writes nothing. */
  lemma MainTypes(fmtType: int)
    ensures StepsOf(fmtType).Some? <==> 0 <= fmtType <= 3
    ensures StepsOf(fmtType).Some? ==> |StepsOf(fmtType).value| == (if fmtType == 3 then 2 else 3)
  {
  }
}
