/** The test-vector copy of add_padding.py (grid_csc_arb/test_vectors).

    Its pad_file is the one of CsvPadding and also returns the width it
    prints; its pad_csc_grid and pad_csr_grid end with a summary line
    `( a b c )` of the three widths, and the script pads the "test" prefix
    in CSC. */
module PadSummary {
  import opened Wrappers
  import opened DecimalText
  import opened CsvPadding

  /** `"( " + str(a) + " " + str(b) + " " + str(c) + " )"`. */
  function Summary(a: nat, b: nat, c: nat): string {
    "( " + NatToString(a) + " " + NatToString(b) + " " + NatToString(c) + " )"
  }

  /** The summary splits into its brackets and three numerals that read back
      as the widths, in order. */
  lemma SummaryParses(a: nat, b: nat, c: nat)
    ensures var ts := SplitWs(Summary(a, b, c));
      && |ts| == 5 && ts[0] == "(" && ts[4] == ")"
      && ParseInt(ts[1]) == Some(a) && ParseInt(ts[2]) == Some(b) && ParseInt(ts[3]) == Some(c)
  {
    var sa, sb, sc := NatToString(a), NatToString(b), NatToString(c);
    var words := ["(", sa, sb, sc, ")"];
    assert Join(words[4..], " ") == ")";
    assert Join(words[3..], " ") == sc + " " + ")";
    assert Join(words[2..], " ") == sb + " " + (sc + " " + ")");
    assert Join(words[1..], " ") == sa + " " + (sb + " " + (sc + " " + ")"));
    assert Summary(a, b, c) == Join(words, " ");
    SplitWsJoin(words);
    ParseNatToString(a);
    ParseNatToString(b);
    ParseNatToString(c);
  }

  /** pad_csc_grid: three pad_file calls without labels, then the summary. */
  function CscSummaryRun(fs: Files, prefix: string): Result<Run, PadError> {
    var v :- Pad(fs, prefix + "_val.csv", Float);
    var r :- Pad(fs, prefix + "_row_idx.csv", Int);
    var c :- Pad(fs, prefix + "_col_ptr.csv", Int);
    Success(Run([NatToString(v.0), NatToString(r.0), NatToString(c.0), Summary(v.0, r.0, c.0)],
                [(prefix + "_val_pad.csv", v.1), (prefix + "_row_idx_pad.csv", r.1),
                 (prefix + "_col_ptr_pad.csv", c.1)]))
  }

  /** pad_csr_grid: the labelled steps of CsvPadding, then the summary. */
  function CsrSummaryRun(fs: Files, prefix: string): Result<Run, PadError> {
    var v :- Pad(fs, prefix + "_val.csv", Float);
    var ci :- Pad(fs, prefix + "_col_idx.csv", Int);
    var rp :- Pad(fs, prefix + "_row_ptr.csv", Int);
    Success(Run(["Value length:", NatToString(v.0), "Column index length:", NatToString(ci.0),
                 "Row pointer length:", NatToString(rp.0), Summary(v.0, ci.0, rp.0)],
                [(prefix + "_val_pad.csv", v.1), (prefix + "_col_idx_pad.csv", ci.1),
                 (prefix + "_row_ptr_pad.csv", rp.1)]))
  }

  method PadCscSummary(fs: Files, prefix: string, replace: real) returns (r: Result<Run, PadError>)
    ensures r == CscSummaryRun(fs, prefix)
  {
    var v := PadFile(fs, prefix + "_val.csv", Float);
    if v.Failure? { return Failure(v.error); }
    var ri := PadFile(fs, prefix + "_row_idx.csv", Int);
    if ri.Failure? { return Failure(ri.error); }
    var cp := PadFile(fs, prefix + "_col_ptr.csv", Int);
    if cp.Failure? { return Failure(cp.error); }
    var (valLen, valTable) := v.value;
    var (rowIdxLen, rowIdxTable) := ri.value;
    var (colPtrLen, colPtrTable) := cp.value;
    r := Success(Run([NatToString(valLen), NatToString(rowIdxLen), NatToString(colPtrLen),
                      Summary(valLen, rowIdxLen, colPtrLen)],
                     [(prefix + "_val_pad.csv", valTable), (prefix + "_row_idx_pad.csv", rowIdxTable),
                      (prefix + "_col_ptr_pad.csv", colPtrTable)]));
  }

  method PadCsrSummary(fs: Files, prefix: string, replace: real) returns (r: Result<Run, PadError>)
    ensures r == CsrSummaryRun(fs, prefix)
  {
    var v := PadFile(fs, prefix + "_val.csv", Float);
    if v.Failure? { return Failure(v.error); }
    var ci := PadFile(fs, prefix + "_col_idx.csv", Int);
    if ci.Failure? { return Failure(ci.error); }
    var rp := PadFile(fs, prefix + "_row_ptr.csv", Int);
    if rp.Failure? { return Failure(rp.error); }
    var (valLen, valTable) := v.value;
    var (colLen, colTable) := ci.value;
    var (rowPtrLen, rowPtrTable) := rp.value;
    r := Success(Run(["Value length:", NatToString(valLen), "Column index length:", NatToString(colLen),
                      "Row pointer length:", NatToString(rowPtrLen), Summary(valLen, colLen, rowPtrLen)],
                     [(prefix + "_val_pad.csv", valTable), (prefix + "_col_idx_pad.csv", colTable),
                      (prefix + "_row_ptr_pad.csv", rowPtrTable)]));
  }

  /** The script: pad the CSC grid of prefix "test". */
  method RunScript(fs: Files) returns (r: Result<Run, PadError>)
    ensures r == CscSummaryRun(fs, "test")
  {
    r := PadCscSummary(fs, "test", SENTINEL);
  }

  /** Both CSR copies fail exactly when one of the three files is missing
      or empty. */
  lemma CsrSummarySucceeds(fs: Files, prefix: string)
    ensures CsrSummaryRun(fs, prefix).Success? <==> GridRun(fs, prefix, CSR_STEPS).Success?
  {
    assert CSR_STEPS[..0] == [] && CSR_STEPS[..3] == CSR_STEPS;
    GridRunSnoc(fs, prefix, CSR_STEPS, 0);
    GridRunSnoc(fs, prefix, CSR_STEPS, 1);
    GridRunSnoc(fs, prefix, CSR_STEPS, 2);
    assert CSR_STEPS[0].input == "_val.csv" && CSR_STEPS[1].input == "_col_idx.csv" && CSR_STEPS[2].input == "_row_ptr.csv";
  }

  /** The CSR copy prints what the labelled pad_csr_grid prints, then the
      summary, and writes the same files. */
  lemma CsrSummaryExtends(fs: Files, prefix: string)
    requires CsrSummaryRun(fs, prefix).Success?
    ensures GridRun(fs, prefix, CSR_STEPS).Success?
    ensures var run, grid := CsrSummaryRun(fs, prefix).value, GridRun(fs, prefix, CSR_STEPS).value;
      && |grid.stdout| == 6 && (forall k | 0 <= k < 6 :: run.stdout[k] == grid.stdout[k])
      && run.written == grid.written
  {
    CsrSummarySucceeds(fs, prefix);
    GridRunOrder(fs, prefix, CSR_STEPS);
  }

  /** Both CSC copies fail exactly when one of the three files is missing
      or empty. */
  lemma CscSummarySucceeds(fs: Files, prefix: string)
    ensures CscSummaryRun(fs, prefix).Success? <==> GridRun(fs, prefix, CSC_STEPS).Success?
  {
    assert CSC_STEPS[..0] == [] && CSC_STEPS[..3] == CSC_STEPS;
    GridRunSnoc(fs, prefix, CSC_STEPS, 0);
    GridRunSnoc(fs, prefix, CSC_STEPS, 1);
    GridRunSnoc(fs, prefix, CSC_STEPS, 2);
    assert CSC_STEPS[0].input == "_val.csv" && CSC_STEPS[1].input == "_row_idx.csv" && CSC_STEPS[2].input == "_col_ptr.csv";
  }

  /** The CSC copy prints the widths of the labelled pad_csc_grid without
      the labels, then the summary, and writes the same files. */
  lemma CscSummaryWidths(fs: Files, prefix: string)
    requires CscSummaryRun(fs, prefix).Success?
    ensures GridRun(fs, prefix, CSC_STEPS).Success?
    ensures var run, grid := CscSummaryRun(fs, prefix).value, GridRun(fs, prefix, CSC_STEPS).value;
      && |grid.stdout| == 6 && (forall k | 0 <= k < 3 :: run.stdout[k] == grid.stdout[2 * k + 1])
      && run.written == grid.written
  {
    CscSummarySucceeds(fs, prefix);
    GridRunOrder(fs, prefix, CSC_STEPS);
  }

  /** The summary of a successful CSC run reads back as the printed widths of
      the three files. */
  lemma CscSummaryReadsBack(fs: Files, prefix: string)
    requires CscSummaryRun(fs, prefix).Success?
    ensures var run := CscSummaryRun(fs, prefix).value;
      var ts := SplitWs(run.stdout[3]);
      && |ts| == 5
      && ParseInt(ts[1]) == Some(PaddedWidth(fs[prefix + "_val.csv"]))
      && ParseInt(ts[2]) == Some(PaddedWidth(fs[prefix + "_row_idx.csv"]))
      && ParseInt(ts[3]) == Some(PaddedWidth(fs[prefix + "_col_ptr.csv"]))
  {
    var a := PaddedWidth(fs[prefix + "_val.csv"]);
    var b := PaddedWidth(fs[prefix + "_row_idx.csv"]);
    var c := PaddedWidth(fs[prefix + "_col_ptr.csv"]);
    SummaryParses(a, b, c);
  }
}
