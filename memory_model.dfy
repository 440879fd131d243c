/** Per-PE memory model of the grid formats (calculate_memory_limits.py).

    Every buffer holds 4-byte elements.  B and C are stored with their `M`
    columns padded to `PaddedM(M)`; the A buffers depend on the format and on
    an upper bound `k` of the nonzeros of one tile.  The bound and the COO
    measurement come from outside the model and are passed in as functions. */
module MemoryModel {
  import opened Arith

  /** Memory of one processing element and the part reserved for code and buffers. */
  const MEM: int := 48 * 1024
  const RESERVED: int := 6 * 1024
  /** Grid heights are drawn from [1, AVAIL_HEIGHT), widths from [1, AVAIL_WIDTH). */
  const AVAIL_HEIGHT: nat := 996
  const AVAIL_WIDTH: nat := 757

  /** The five memory functions of the planner. */
  datatype Format = Gemm | Coo | Csc | Csr | Ellpack

  /** find_upper_bound_nnz(Nt, Kt, density, t): a bound on one tile's nonzeros. */
  type BoundOracle = (int, int, int, int) -> int
  /** get_nnz_coo(N, K, height, width, density): the measured COO length. */
  type MeasureOracle = (int, int, int, int, int) -> int

  /** `ceil((M + 1) / 4) * 4`: the row length of B and C with 16-byte alignment. */
  function PaddedM(M: int): (p: int)
    ensures p % 4 == 0 && M < p <= M + 4
  {
    var q := (M + 4) / 4;
    assert M + 4 == 4 * q + (M + 4) % 4;
    q * 4
  }

  /** `PaddedM(M)` is the least multiple of 4 above `M`. */
  lemma PaddedMLeast(M: int, x: int)
    requires x % 4 == 0 && x > M
    ensures PaddedM(M) <= x
  {
  }

  lemma PaddedMMonotone(M1: int, M2: int)
    requires M1 <= M2
    ensures PaddedM(M1) <= PaddedM(M2)
  {
    PaddedMLeast(M1, PaddedM(M2));
  }

  /** The B and C operand buffers every format stores: `Kt x pM` and `Nt x pM`. */
  function Operands(Nt: int, Kt: int, M: int): int {
    Kt * PaddedM(M) + Nt * PaddedM(M)
  }

  function MemoryGemm(Nt: int, Kt: int, M: int): int {
    4 * (Operands(Nt, Kt, M) + Nt * Kt)
  }

  /** CSR: values and column indices of length `k`, a row pointer of `Nt + 1`. */
  function MemoryCsr(Nt: int, Kt: int, M: int, k: int): int {
    4 * (Operands(Nt, Kt, M) + k + (Nt + 1) + k)
  }

  /** CSC: values and row indices of length `k`, a column pointer of `Kt + 1`. */
  function MemoryCsc(Nt: int, Kt: int, M: int, k: int): int {
    4 * (Operands(Nt, Kt, M) + k + k + (Kt + 1))
  }

  /** ELLPACK: `Nt` lines of `k` values and `k` indices. */
  function MemoryEllpack(Nt: int, Kt: int, M: int, k: int): int {
    4 * (Operands(Nt, Kt, M) + Nt * k + Nt * k)
  }

  /** The cheap COO estimate: `Nt * Kt * density / 100` nonzeros plus 15%,
      for each of the value, x and y arrays. */
  function CooEstimate(Nt: int, Kt: int, M: int, density: int): real {
    var upper := (Nt * Kt) as real * (density as real / 100.0);
    var upper' := upper + upper * 0.15;
    4.0 * (Operands(Nt, Kt, M) as real + upper' + upper' + upper')
  }

  /** COO: the estimate when it already exceeds the budget, otherwise the
      same three arrays sized by the measured length. */
  function MemoryCoo(measure: MeasureOracle, Nt: int, Kt: int, M: int, density: int, width: int, height: int): real {
    var estimate := CooEstimate(Nt, Kt, M, density);
    if estimate > (MEM - RESERVED) as real then estimate
    else
      var k := measure(Nt * height, Kt * width, height, width, density);
      (4 * (Operands(Nt, Kt, M) + k + k + k)) as real
  }

  /** memory_used_<format>(Nt, Kt, M, density, width, height). */
  function MemoryUsed(f: Format, bound: BoundOracle, measure: MeasureOracle,
                      Nt: int, Kt: int, M: int, density: int, width: int, height: int): real
  {
    match f
    case Gemm => MemoryGemm(Nt, Kt, M) as real
    case Coo => MemoryCoo(measure, Nt, Kt, M, density, width, height)
    case Csc => MemoryCsc(Nt, Kt, M, bound(Nt, Kt, density, width * height)) as real
    case Csr => MemoryCsr(Nt, Kt, M, bound(Nt, Kt, density, width * height)) as real
    case Ellpack => MemoryEllpack(Nt, Kt, M, bound(Nt, Kt, density, width * height)) as real
  }

  /** Memory is counted in whole 4-byte elements. */
  lemma {:induction false} WholeWords(Nt: int, Kt: int, M: int, k: int)
    ensures MemoryGemm(Nt, Kt, M) % 4 == 0 && MemoryCsr(Nt, Kt, M, k) % 4 == 0
    ensures MemoryCsc(Nt, Kt, M, k) % 4 == 0 && MemoryEllpack(Nt, Kt, M, k) % 4 == 0
  {
    var o := Operands(Nt, Kt, M);
    DivModUnique(MemoryGemm(Nt, Kt, M), 4, o + Nt * Kt, 0);
    DivModUnique(MemoryCsr(Nt, Kt, M, k), 4, o + k + (Nt + 1) + k, 0);
    DivModUnique(MemoryCsc(Nt, Kt, M, k), 4, o + k + k + (Kt + 1), 0);
    DivModUnique(MemoryEllpack(Nt, Kt, M, k), 4, o + Nt * k + Nt * k, 0);
  }

  /** CSR and CSC differ only in the pointer array: `Nt + 1` against `Kt + 1`. */
  lemma CsrAgainstCsc(Nt: int, Kt: int, M: int, k: int)
    ensures MemoryCsr(Nt, Kt, M, k) - MemoryCsc(Nt, Kt, M, k) == 4 * (Nt - Kt)
  {
  }

  /** A larger nonzero bound never needs less memory. */
  lemma {:induction false} GrowsWithBound(Nt: nat, Kt: int, M: int, k1: int, k2: int)
    requires k1 <= k2
    ensures MemoryCsr(Nt, Kt, M, k1) <= MemoryCsr(Nt, Kt, M, k2)
    ensures MemoryCsc(Nt, Kt, M, k1) <= MemoryCsc(Nt, Kt, M, k2)
    ensures MemoryEllpack(Nt, Kt, M, k1) <= MemoryEllpack(Nt, Kt, M, k2)
  {
    assert Nt * k2 - Nt * k1 == Nt * (k2 - k1);
    MulLe(0, Nt, k2 - k1);
  }

  /** A wider dense operand never needs less memory, in any format. */
  lemma {:induction false} GrowsWithM(Nt: nat, Kt: nat, M1: int, M2: int, k: int)
    requires M1 <= M2
    ensures MemoryGemm(Nt, Kt, M1) <= MemoryGemm(Nt, Kt, M2)
    ensures MemoryCsr(Nt, Kt, M1, k) <= MemoryCsr(Nt, Kt, M2, k)
    ensures MemoryCsc(Nt, Kt, M1, k) <= MemoryCsc(Nt, Kt, M2, k)
    ensures MemoryEllpack(Nt, Kt, M1, k) <= MemoryEllpack(Nt, Kt, M2, k)
  {
    PaddedMMonotone(M1, M2);
    var p1, p2 := PaddedM(M1), PaddedM(M2);
    assert (Kt + Nt) * p2 - (Kt + Nt) * p1 == (Kt + Nt) * (p2 - p1);
    MulLe(0, Kt + Nt, p2 - p1);
    assert Operands(Nt, Kt, M1) == (Kt + Nt) * p1 && Operands(Nt, Kt, M2) == (Kt + Nt) * p2;
  }

  /** CSR fits in no more memory than GEMM exactly when its three A arrays
      are no larger than the dense tile. */
  lemma CsrAgainstGemm(Nt: int, Kt: int, M: int, k: int)
    ensures MemoryCsr(Nt, Kt, M, k) <= MemoryGemm(Nt, Kt, M) <==> 2 * k + Nt + 1 <= Nt * Kt
  {
  }

  /** ELLPACK fits in no more memory than GEMM exactly when its two `Nt x k`
      arrays are no larger than the dense tile. */
  lemma EllpackAgainstGemm(Nt: int, Kt: int, M: int, k: int)
    ensures MemoryEllpack(Nt, Kt, M, k) <= MemoryGemm(Nt, Kt, M) <==> 2 * (Nt * k) <= Nt * Kt
  {
  }

  /** An estimate over the budget is returned without consulting the measurement. */
  lemma CooSkipsMeasurement(m1: MeasureOracle, m2: MeasureOracle, Nt: int, Kt: int, M: int,
                            density: int, width: int, height: int)
    requires CooEstimate(Nt, Kt, M, density) > (MEM - RESERVED) as real
    ensures MemoryCoo(m1, Nt, Kt, M, density, width, height) == MemoryCoo(m2, Nt, Kt, M, density, width, height)
    ensures MemoryCoo(m1, Nt, Kt, M, density, width, height) == CooEstimate(Nt, Kt, M, density)
  {
  }

  /** Any COO usage under the budget is the measured one: the three arrays
      sized by get_nnz_coo for the whole `Nt*height x Kt*width` matrix. */
  lemma CooFitsOnlyMeasured(measure: MeasureOracle, Nt: int, Kt: int, M: int, density: int, width: int, height: int)
    requires MemoryCoo(measure, Nt, Kt, M, density, width, height) <= (MEM - RESERVED) as real
    ensures MemoryCoo(measure, Nt, Kt, M, density, width, height)
         == (4 * (Operands(Nt, Kt, M) + 3 * measure(Nt * height, Kt * width, height, width, density))) as real
  {
  }
}
