/** Host-side layout arithmetic of the device launchers (the four run_memcpy.py
    scripts): tile shapes, the split of a dense matrix into per-PE tiles, the
    host <-> PE index maps, the padding of B and trimming of C, and the
    FLOP/access formulas.

    The index maps are written in the scripts as map strings handed to the
    vendor runtime; here each one is the `div`/`mod` function it describes,
    paired with its inverse. */
module Layout {
  import opened Arith
  import opened Wrappers
  import MemoryModel

  /** The Python exceptions the scripts can stop with. */
  datatype ScriptError =
    | ZeroDivisionError
    | AssertionError(msg: string)
    | ValueError(msg: string)

  /** A processing element at column `x`, row `y` of the grid. */
  datatype PE = PE(x: nat, y: nat)

  /** `Nt = N // height`, `Kt = K // width` and the two asserts that follow. */
  function TileShape(N: nat, K: nat, height: nat, width: nat): (r: Result<(nat, nat), ScriptError>)
    ensures r.Success? <==> height >= 1 && width >= 1 && N % height == 0 && K % width == 0
    ensures r.Success? ==> r.value.0 * height == N && r.value.1 * width == K
    ensures r.Failure? && height >= 1 && width >= 1 ==> r.error.AssertionError?
  {
    if height == 0 || width == 0 then Failure(ZeroDivisionError)
    else
      var Nt, Kt := N / height, K / width;
      assert N == Nt * height + N % height;
      assert K == Kt * width + K % width;
      if N != Nt * height then Failure(AssertionError("N must be multiple of Nt"))
      else if K != Kt * width then Failure(AssertionError("K must be multiple of Kt"))
      else Success((Nt, Kt))
  }

  // ---------------------------------------------------------------------------
  // split_matrix_into_grids

  predicate IsMatrix<T>(A: seq<seq<T>>, rows: nat, cols: nat) {
    |A| == rows && forall r | 0 <= r < rows :: |A[r]| == cols
  }

  function Min(a: nat, b: nat): nat {
    if a <= b then a else b
  }

  /** A start `b * p` lies inside `[0, n)` exactly for the first `CeilDiv(n, p)` values of `b`. */
  lemma StartInside(n: nat, p: nat, b: nat)
    requires p >= 1
    ensures b * p < n <==> b < CeilDiv(n, p)
  {
    CeilDivBounds(n, p);
    if b < CeilDiv(n, p) {
      MulLe(b, CeilDiv(n, p) - 1, p);
    } else {
      MulLe(CeilDiv(n, p), b, p);
    }
  }

  /** Cell `k` of an `h x w` block at (i, j), the block read row by row. */
  function BlockCell(A: seq<seq<real>>, N: nat, K: nat, i: nat, j: nat, h: nat, w: nat, k: nat): real
    requires IsMatrix(A, N, K) && i + h <= N && j + w <= K && k < h * w
  {
    SplitJoin(k, w, h);
    A[i + k / w][j + k % w]
  }

  /** `matrix[i:i+Nt, j:j+Kt].flatten()`: the block clipped at the matrix edge, row-major. */
  function Block(A: seq<seq<real>>, N: nat, K: nat, i: nat, j: nat, Nt: nat, Kt: nat): seq<real>
    requires IsMatrix(A, N, K) && i < N && j < K
  {
    var h, w := Min(Nt, N - i), Min(Kt, K - j);
    seq(h * w, k requires 0 <= k < h * w => BlockCell(A, N, K, i, j, h, w, k))
  }

  /** The `t`-th block in the order of the two loops: block row `t / cb`, block column `t % cb`. */
  function GridAt(A: seq<seq<real>>, N: nat, K: nat, Nt: nat, Kt: nat, t: nat): seq<real>
    requires IsMatrix(A, N, K) && Nt >= 1 && Kt >= 1
    requires t < CeilDiv(N, Nt) * CeilDiv(K, Kt)
  {
    var rb, cb := CeilDiv(N, Nt), CeilDiv(K, Kt);
    SplitJoin(t, cb, rb);
    StartInside(N, Nt, t / cb);
    StartInside(K, Kt, t % cb);
    Block(A, N, K, (t / cb) * Nt, (t % cb) * Kt, Nt, Kt)
  }

  /** The list split_matrix_into_grids builds. */
  function Grids(A: seq<seq<real>>, N: nat, K: nat, Nt: nat, Kt: nat): seq<seq<real>>
    requires IsMatrix(A, N, K) && Nt >= 1 && Kt >= 1
  {
    var n := CeilDiv(N, Nt) * CeilDiv(K, Kt);
    seq(n, t requires 0 <= t < n => GridAt(A, N, K, Nt, Kt, t))
  }

  /** `subs` holds the first `|subs|` blocks in loop order. */
  predicate GridPrefix(A: seq<seq<real>>, N: nat, K: nat, Nt: nat, Kt: nat, subs: seq<seq<real>>)
    requires IsMatrix(A, N, K) && Nt >= 1 && Kt >= 1
  {
    && |subs| <= CeilDiv(N, Nt) * CeilDiv(K, Kt)
    && forall t | 0 <= t < |subs| :: subs[t] == GridAt(A, N, K, Nt, Kt, t)
  }

  /** Block row `bi`, block column `bj` comes `bi * cb + bj`-th in loop order. */
  lemma GridAtStep(A: seq<seq<real>>, N: nat, K: nat, Nt: nat, Kt: nat, bi: nat, bj: nat)
    requires IsMatrix(A, N, K) && Nt >= 1 && Kt >= 1
    requires bi < CeilDiv(N, Nt) && bj < CeilDiv(K, Kt)
    ensures bi * Nt < N && bj * Kt < K
    ensures bi * CeilDiv(K, Kt) + bj < CeilDiv(N, Nt) * CeilDiv(K, Kt)
    ensures GridAt(A, N, K, Nt, Kt, bi * CeilDiv(K, Kt) + bj) == Block(A, N, K, bi * Nt, bj * Kt, Nt, Kt)
  {
    StartInside(N, Nt, bi);
    StartInside(K, Kt, bj);
    JoinSplit(bi, bj, CeilDiv(K, Kt), CeilDiv(N, Nt));
  }

  lemma GridPrefixAppend(A: seq<seq<real>>, N: nat, K: nat, Nt: nat, Kt: nat, subs: seq<seq<real>>, b: seq<real>)
    requires IsMatrix(A, N, K) && Nt >= 1 && Kt >= 1 && GridPrefix(A, N, K, Nt, Kt, subs)
    requires |subs| < CeilDiv(N, Nt) * CeilDiv(K, Kt) && b == GridAt(A, N, K, Nt, Kt, |subs|)
    ensures GridPrefix(A, N, K, Nt, Kt, subs + [b])
  {
  }

  lemma GridPrefixFull(A: seq<seq<real>>, N: nat, K: nat, Nt: nat, Kt: nat, subs: seq<seq<real>>)
    requires IsMatrix(A, N, K) && Nt >= 1 && Kt >= 1 && GridPrefix(A, N, K, Nt, Kt, subs)
    requires |subs| == CeilDiv(N, Nt) * CeilDiv(K, Kt)
    ensures subs == Grids(A, N, K, Nt, Kt)
  {
  }

  /** The loops of split_matrix_into_grids.  A zero step is Python's
      `range()` ValueError; the outer range raises at once, the inner one as
      soon as the outer loop runs. */
  method SplitMatrixIntoGrids(A: seq<seq<real>>, N: nat, K: nat, Nt: nat, Kt: nat)
    returns (r: Result<seq<seq<real>>, ScriptError>)
    requires IsMatrix(A, N, K)
    ensures r.Failure? <==> Nt == 0 || (Kt == 0 && N > 0)
    ensures r.Success? ==> r.value == if Kt == 0 then [] else Grids(A, N, K, Nt, Kt)
  {
    if Nt == 0 || (Kt == 0 && N > 0) {
      return Failure(ValueError("range() arg 3 must not be zero"));
    }
    var submatrices: seq<seq<real>> := [];
    var i, bi := 0, 0;
    while i < N
      invariant i == bi * Nt && bi <= CeilDiv(N, Nt)
      invariant Kt == 0 ==> submatrices == []
      invariant Kt >= 1 ==> |submatrices| == bi * CeilDiv(K, Kt) && GridPrefix(A, N, K, Nt, Kt, submatrices)
      decreases N - i
    {
      StartInside(N, Nt, bi);
      var j, bj := 0, 0;
      while j < K
        invariant j == bj * Kt && bj <= CeilDiv(K, Kt)
        invariant |submatrices| == bi * CeilDiv(K, Kt) + bj
        invariant GridPrefix(A, N, K, Nt, Kt, submatrices)
        decreases K - j
      {
        StartInside(K, Kt, bj);
        GridAtStep(A, N, K, Nt, Kt, bi, bj);
        GridPrefixAppend(A, N, K, Nt, Kt, submatrices, Block(A, N, K, i, j, Nt, Kt));
        submatrices := submatrices + [Block(A, N, K, i, j, Nt, Kt)];
        MulSucc(bj, Kt);
        j, bj := j + Kt, bj + 1;
      }
      StartInside(K, Kt, bj);
      MulSucc(bi, CeilDiv(K, Kt));
      MulSucc(bi, Nt);
      i, bi := i + Nt, bi + 1;
    }
    StartInside(N, Nt, bi);
    if Kt >= 1 {
      GridPrefixFull(A, N, K, Nt, Kt, submatrices);
    }
    return Success(submatrices);
  }

  /** Cell `k` of the tile in grid row `i`, grid column `j`, read row by row. */
  function TileCell(A: seq<seq<real>>, N: nat, K: nat, Nt: nat, Kt: nat, height: nat, width: nat,
                    i: nat, j: nat, k: nat): real
    requires IsMatrix(A, N, K) && Kt >= 1 && N == Nt * height && K == Kt * width
    requires i < height && j < width && k < Nt * Kt
  {
    SplitJoin(k, Kt, Nt);
    JoinSplit(i, k / Kt, Nt, height);
    JoinSplit(j, k % Kt, Kt, width);
    A[i * Nt + k / Kt][j * Kt + k % Kt]
  }

  lemma ExactCeil(n: nat, p: nat, q: nat)
    requires p >= 1 && n == p * q
    ensures CeilDiv(n, p) == q
  {
    DivModUnique(n, p, q, 0);
  }

  /** Tile `i` of `q` tiles of size `p` ends inside the extent `p * q`. */
  lemma TileInside(n: nat, p: nat, q: nat, i: nat)
    requires n == p * q && i < q && p >= 1
    ensures i * p + p <= n && Min(p, n - i * p) == p
  {
    MulLe(i + 1, q, p);
  }

  /** gemm iportmap_A: `A_prep[i][j][k] -> PE[j, i], index[k]`, where `A_prep`
      is the split reshaped to (height, width, Nt * Kt). */
  function GemmAMap(i: nat, j: nat, k: nat): (PE, nat) {
    (PE(j, i), k)
  }

  /** With `N == Nt * height` and `K == Kt * width` the split gives
      `height * width` tiles of `Nt * Kt` cells, and PE (x, y) receives at
      index k cell k of tile `y * width + x`: the cell at row `y * Nt + k / Kt`,
      column `x * Kt + k % Kt` of A. */
  lemma GemmTileOnPE(A: seq<seq<real>>, N: nat, K: nat, Nt: nat, Kt: nat, height: nat, width: nat,
                     x: nat, y: nat, k: nat)
    requires IsMatrix(A, N, K) && Nt >= 1 && Kt >= 1 && N == Nt * height && K == Kt * width
    requires x < width && y < height && k < Nt * Kt
    ensures GemmAMap(y, x, k) == (PE(x, y), k)
    ensures |Grids(A, N, K, Nt, Kt)| == height * width
    ensures y * width + x < height * width && |Grids(A, N, K, Nt, Kt)[y * width + x]| == Nt * Kt
    ensures Grids(A, N, K, Nt, Kt)[y * width + x][k] == TileCell(A, N, K, Nt, Kt, height, width, y, x, k)
  {
    ExactCeil(N, Nt, height);
    ExactCeil(K, Kt, width);
    JoinSplit(y, x, width, height);
    TileInside(N, Nt, height, y);
    TileInside(K, Kt, width, x);
    var b := Block(A, N, K, y * Nt, x * Kt, Nt, Kt);
    assert Grids(A, N, K, Nt, Kt)[y * width + x] == b;
    assert b[k] == BlockCell(A, N, K, y * Nt, x * Kt, Nt, Kt, k);
  }

  /** Every cell of A sits in exactly one tile: cell (r, c) is entry
      `(r % Nt) * Kt + c % Kt` of tile `(r / Nt) * width + c / Kt`. */
  lemma CellInTile(A: seq<seq<real>>, N: nat, K: nat, Nt: nat, Kt: nat, height: nat, width: nat, r: nat, c: nat)
    requires IsMatrix(A, N, K) && Nt >= 1 && Kt >= 1 && N == Nt * height && K == Kt * width
    requires r < N && c < K
    ensures r / Nt < height && c / Kt < width && (r % Nt) * Kt + c % Kt < Nt * Kt
    ensures TileCell(A, N, K, Nt, Kt, height, width, r / Nt, c / Kt, (r % Nt) * Kt + c % Kt) == A[r][c]
  {
    SplitJoin(r, Nt, height);
    SplitJoin(c, Kt, width);
    JoinSplit(r % Nt, c % Kt, Kt, Nt);
  }

  // ---------------------------------------------------------------------------
  // Index maps

  /** iportmap_B: `B[i][j] -> PE[i // Kt, 0], index[i % Kt, j]`. */
  function BMap(Kt: nat, i: nat, j: nat): (PE, (nat, nat))
    requires Kt >= 1
  {
    (PE(i / Kt, 0), (i % Kt, j))
  }

  /** The inverse of BMap: local row `r` of PE column `x` is row `x * Kt + r` of B. */
  function BSource(Kt: nat, pe: PE, r: nat, c: nat): (nat, nat) {
    (pe.x * Kt + r, c)
  }

  /** Row `i < K` of B goes to a PE of the first grid row, at a local row
      below `Kt`, and BSource brings it back. */
  lemma BMapRoundTrip(K: nat, Kt: nat, width: nat, i: nat, j: nat)
    requires Kt >= 1 && K == Kt * width && i < K
    ensures BMap(Kt, i, j).0.x < width && BMap(Kt, i, j).0.y == 0 && BMap(Kt, i, j).1.0 < Kt
    ensures BSource(Kt, BMap(Kt, i, j).0, BMap(Kt, i, j).1.0, BMap(Kt, i, j).1.1) == (i, j)
  {
    SplitJoin(i, Kt, width);
  }

  /** Every slot of the first grid row is reached: BSource lands inside B and
      BMap sends it back to the same slot. */
  lemma BSourceRoundTrip(K: nat, Kt: nat, width: nat, x: nat, r: nat, c: nat)
    requires Kt >= 1 && K == Kt * width && x < width && r < Kt
    ensures BSource(Kt, PE(x, 0), r, c).0 < K
    ensures BMap(Kt, x * Kt + r, c) == (PE(x, 0), (r, c))
  {
    JoinSplit(x, r, Kt, width);
  }

  /** iportmap of the per-PE A arrays: `A[i][j] -> PE[i % width, i // width], index[j]`. */
  function ARowMap(width: nat, i: nat, j: nat): (PE, nat)
    requires width >= 1
  {
    (PE(i % width, i / width), j)
  }

  /** The inverse of ARowMap: PE (x, y) holds host row `y * width + x`. */
  function ARowSource(width: nat, pe: PE, j: nat): (nat, nat) {
    (pe.y * width + pe.x, j)
  }

  /** Host row `i < width * height` goes to a PE of the grid and ARowSource
      brings it back. */
  lemma ARowMapRoundTrip(width: nat, height: nat, i: nat, j: nat)
    requires width >= 1 && i < width * height
    ensures ARowMap(width, i, j).0.x < width && ARowMap(width, i, j).0.y < height
    ensures ARowSource(width, ARowMap(width, i, j).0, ARowMap(width, i, j).1) == (i, j)
  {
    SplitJoin(i, width, height);
  }

  /** Every PE of the grid receives a host row: ARowSource lands below
      `width * height` and ARowMap sends it back to the same PE. */
  lemma ARowSourceRoundTrip(width: nat, height: nat, x: nat, y: nat, j: nat)
    requires x < width && y < height
    ensures ARowSource(width, PE(x, y), j).0 < width * height
    ensures ARowMap(width, y * width + x, j) == (PE(x, y), j)
  {
    JoinSplit(y, x, width, height);
  }

  /** The gather maps of C and of the timestamps: element `n` of the output
      comes from the last grid column, `PE[width - 1, n // per]`, at index
      `n % per`. */
  function GatherMap(width: nat, per: nat, n: nat): (PE, nat)
    requires width >= 1 && per >= 1
  {
    (PE(width - 1, n / per), n % per)
  }

  /** The inverse of GatherMap: index `k` of PE row `y` is element `y * per + k`. */
  function GatherSource(per: nat, pe: PE, k: nat): nat {
    pe.y * per + k
  }

  /** Element `n < height * per` comes from a PE of the last column, at an
      index below `per`, and GatherSource brings it back. */
  lemma GatherRoundTrip(width: nat, height: nat, per: nat, n: nat)
    requires width >= 1 && per >= 1 && n < height * per
    ensures GatherMap(width, per, n).0.x == width - 1 && GatherMap(width, per, n).0.y < height
    ensures GatherMap(width, per, n).1 < per
    ensures GatherSource(per, GatherMap(width, per, n).0, GatherMap(width, per, n).1) == n
  {
    SplitJoin(n, per, height);
  }

  /** Every slot of the last grid column is gathered exactly once: GatherSource
      lands below `height * per` and GatherMap sends it back. */
  lemma GatherSourceRoundTrip(width: nat, height: nat, per: nat, y: nat, k: nat)
    requires width >= 1 && y < height && k < per
    ensures GatherSource(per, PE(width - 1, y), k) < height * per
    ensures GatherMap(width, per, y * per + k) == (PE(width - 1, y), k)
  {
    JoinSplit(y, k, per, height);
  }

  /** oportmap_C, `per = Nt * M`: with `N == Nt * height` the C elements
      `[0, N * M)` are exactly the `height * (Nt * M)` gathered slots, and
      cell (row, col) of the row-major C comes from grid row `row / Nt` at
      index `(row % Nt) * M + col`: each PE of the last column returns its
      `Nt` rows of C in order. */
  lemma CGather(N: nat, M: nat, Nt: nat, height: nat, width: nat, row: nat, col: nat)
    requires width >= 1 && Nt >= 1 && N == Nt * height && row < N && col < M
    ensures N * M == height * (Nt * M)
    ensures row * M + col < N * M
    ensures GatherMap(width, Nt * M, row * M + col) == (PE(width - 1, row / Nt), (row % Nt) * M + col)
  {
    assert N * M == height * (Nt * M);
    CellInBuffer(N, M, row, col);
    RowInBlock(row, col, M, Nt);
    DivModUnique(row * M + col, Nt * M, row / Nt, (row % Nt) * M + col);
  }

  /** Element (row, col) of a row-major matrix with `M` columns, cut into
      blocks of `Nt` rows, is word `(row % Nt) * M + col` of block `row / Nt`. */
  lemma RowInBlock(row: nat, col: nat, M: nat, Nt: nat)
    requires Nt >= 1 && col < M
    ensures (row % Nt) * M + col < Nt * M
    ensures row * M + col == (row / Nt) * (Nt * M) + ((row % Nt) * M + col)
  {
    var a, b := row / Nt, row % Nt;
    assert row == a * Nt + b;
    JoinSplit(b, col, M, Nt);
    assert row * M == (a * Nt + b) * M;
  }

  /** grid_ellpack_dsr sends the flattened A arrays (`width * height * Nt`
      rows of `ALen`) in row-major order, `l = Nt * ALen` words to each PE:
      word `k` of PE (x, y) is flattened word `(y * width + x) * l + k`, which
      is row `(y * width + x) * Nt + k / ALen` of the host array, column
      `k % ALen`.  So each PE receives `Nt` whole consecutive rows. */
  lemma EllpackTransfer(Nt: nat, ALen: nat, width: nat, height: nat, x: nat, y: nat, k: nat)
    requires ALen >= 1 && x < width && y < height && k < Nt * ALen
    ensures (width * height * Nt) * ALen == width * height * (Nt * ALen)
    ensures (y * width + x) * (Nt * ALen) + k < (width * height * Nt) * ALen
    ensures ((y * width + x) * (Nt * ALen) + k) / ALen == (y * width + x) * Nt + k / ALen
    ensures ((y * width + x) * (Nt * ALen) + k) % ALen == k % ALen
    ensures (y * width + x) * Nt + k / ALen < width * height * Nt
  {
    var p, G := y * width + x, width * height;
    CellInBuffer(height, width, y, x);
    assert p < G;
    WordInRows(p, k, Nt, ALen);
    CellInBuffer(G, Nt, p, k / ALen);
    CellInBuffer(G * Nt, ALen, p * Nt + k / ALen, k % ALen);
    DivModUnique(p * (Nt * ALen) + k, ALen, p * Nt + k / ALen, k % ALen);
    assert (G * Nt) * ALen == G * (Nt * ALen);
  }

  /** Word `k` of the `p`-th run of `Nt` rows of length `ALen` is row
      `p * Nt + k / ALen`, column `k % ALen`. */
  lemma WordInRows(p: nat, k: nat, Nt: nat, ALen: nat)
    requires ALen >= 1 && k < Nt * ALen
    ensures k / ALen < Nt && k % ALen < ALen
    ensures p * (Nt * ALen) + k == (p * Nt + k / ALen) * ALen + k % ALen
  {
    SplitJoin(k, ALen, Nt);
    assert p * (Nt * ALen) == (p * Nt) * ALen;
  }

  // ---------------------------------------------------------------------------
  // Padding of B, trimming of C

  function Zeros(n: nat): (z: seq<real>)
    ensures |z| == n && forall c | 0 <= c < n :: z[c] == 0.0
  {
    if n == 0 then [] else Zeros(n - 1) + [0.0]
  }

  /** `np.pad(B, [(0, 0), (0, extra)])`: `extra` zero columns appended to each row. */
  function PadColumns(B: seq<seq<real>>, extra: nat): (P: seq<seq<real>>)
    ensures |P| == |B|
    ensures forall r | 0 <= r < |B| ::
              |P[r]| == |B[r]| + extra && P[r][..|B[r]|] == B[r] &&
              forall c | |B[r]| <= c < |P[r]| :: P[r][c] == 0.0
  {
    var P := seq(|B|, r requires 0 <= r < |B| => B[r] + Zeros(extra));
    assert forall r | 0 <= r < |B| :: P[r] == B[r] + Zeros(extra);
    P
  }

  /** A Python slice `row[:stop]`: a negative stop counts from the end and the
      result is clipped to the row. */
  function SliceTo<T>(row: seq<T>, stop: int): (s: seq<T>)
    ensures stop >= 0 ==> s == row[..Min(stop, |row|)]
    ensures stop < 0 ==> s == if -stop <= |row| then row[..|row| + stop] else []
  {
    var end := if stop < 0 then |row| + stop else stop;
    if end <= 0 then [] else row[..Min(end, |row|)]
  }

  /** `C[:, :-(padded_M - M)]`. */
  function TrimColumns(C: seq<seq<real>>, extra: nat): (T: seq<seq<real>>)
    ensures |T| == |C|
  {
    seq(|C|, r requires 0 <= r < |C| => SliceTo(C[r], -(extra as int)))
  }

  /** With rows of `padded_M` cells the trim keeps exactly the first `M`
      cells of each row; this relies on `padded_M - M >= 1`. */
  lemma TrimKeepsM(C: seq<seq<real>>, M: nat)
    requires forall r | 0 <= r < |C| :: |C[r]| == MemoryModel.PaddedM(M)
    ensures forall r | 0 <= r < |C| ::
              TrimColumns(C, MemoryModel.PaddedM(M) - M)[r] == C[r][..M]
  {
  }

  /** With no padding the same slice would be `[:-0]`, i.e. `[:0]`, and would
      empty every row. */
  lemma TrimByZeroEmpties(C: seq<seq<real>>)
    ensures forall r | 0 <= r < |C| :: TrimColumns(C, 0)[r] == []
  {
  }

  /** Padding B to `padded_M` columns and trimming back gives B again. */
  lemma PadTrimRoundTrip(B: seq<seq<real>>, M: nat)
    requires forall r | 0 <= r < |B| :: |B[r]| == M
    ensures TrimColumns(PadColumns(B, MemoryModel.PaddedM(M) - M), MemoryModel.PaddedM(M) - M) == B
  {
    var d := MemoryModel.PaddedM(M) - M;
    var P := PadColumns(B, d);
    TrimKeepsM(P, M);
    forall r | 0 <= r < |B|
      ensures TrimColumns(P, d)[r] == B[r]
    {
      assert P[r][..M] == B[r];
    }
  }

  // ---------------------------------------------------------------------------
  // FLOP and access counts

  function GemmFlop(width: nat, height: nat, Nt: nat, Kt: nat, M: nat): nat {
    width * height * (Kt * M * 2 * Nt)
  }

  function GemmRelativeAccesses(width: nat, height: nat, Nt: nat, Kt: nat, M: nat): nat {
    width * height * (4 * Kt * (Nt + M * (Nt + 1)))
  }

  function GemmAbsoluteAccesses(width: nat, height: nat, Nt: nat, Kt: nat, M: nat): nat {
    width * height * (4 * Kt * (Nt + M * (3 * Nt + 1)))
  }

  /** Under the tile shape the gemm FLOP count is the dense product's `2 * N * K * M`. */
  lemma GemmFlopTotal(N: nat, K: nat, M: nat, Nt: nat, Kt: nat, height: nat, width: nat)
    requires N == Nt * height && K == Kt * width
    ensures GemmFlop(width, height, Nt, Kt, M) == 2 * N * K * M
  {
    calc {
      GemmFlop(width, height, Nt, Kt, M);
      width * height * (Kt * M * 2 * Nt);
      { assert width * height * (Kt * M * 2 * Nt) == 2 * (Nt * height) * (Kt * width) * M; }
      2 * N * K * M;
    }
  }

  /** The absolute count adds the C writes and the extra A reads, `4 * flop`
      more, so it is never below the relative count. */
  lemma GemmAccessesOrdered(width: nat, height: nat, Nt: nat, Kt: nat, M: nat)
    ensures GemmAbsoluteAccesses(width, height, Nt, Kt, M)
            == GemmRelativeAccesses(width, height, Nt, Kt, M) + 4 * GemmFlop(width, height, Nt, Kt, M)
    ensures GemmAbsoluteAccesses(width, height, Nt, Kt, M) >= GemmRelativeAccesses(width, height, Nt, Kt, M)
  {
    var P := width * height;
    assert Nt + M * (3 * Nt + 1) == (Nt + M * (Nt + 1)) + M * 2 * Nt;
    assert 4 * Kt * (Nt + M * (3 * Nt + 1)) == 4 * Kt * (Nt + M * (Nt + 1)) + 4 * (Kt * M * 2 * Nt);
    assert P * (4 * Kt * (Nt + M * (3 * Nt + 1))) == P * (4 * Kt * (Nt + M * (Nt + 1))) + 4 * (P * (Kt * M * 2 * Nt));
  }

  function CsrFlop(width: nat, height: nat, ALen: nat, pM: nat): nat {
    width * height * (ALen * pM * 2)
  }

  function CsrRelativeAccesses(width: nat, height: nat, ALen: nat, pM: nat): nat {
    width * height * (4 * ALen * (5 + 2 * pM))
  }

  function CsrAbsoluteAccesses(width: nat, height: nat, ALen: nat, pM: nat): nat {
    width * height * (4 * ALen * (5 + 3 * pM))
  }

  /** The CSR absolute count adds the C writes, `2 * flop` more than the relative count. */
  lemma CsrAccessesOrdered(width: nat, height: nat, ALen: nat, pM: nat)
    ensures CsrAbsoluteAccesses(width, height, ALen, pM)
            == CsrRelativeAccesses(width, height, ALen, pM) + 2 * CsrFlop(width, height, ALen, pM)
    ensures CsrAbsoluteAccesses(width, height, ALen, pM) >= CsrRelativeAccesses(width, height, ALen, pM)
  {
    var P := width * height;
    assert 4 * ALen * (5 + 3 * pM) == 4 * ALen * (5 + 2 * pM) + 2 * (ALen * pM * 2);
    assert P * (4 * ALen * (5 + 3 * pM)) == P * (4 * ALen * (5 + 2 * pM)) + 2 * (P * (ALen * pM * 2));
  }
}
