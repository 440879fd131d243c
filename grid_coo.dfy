/** Tile-ordered COO encoding of a dense matrix (idea_filip/helper.py).

    get_grid_format cuts an `N x K` matrix into `Nt x Kt` tiles, a grid of
    `px = N / Nt` by `py = K / Kt` of them, and lists the nonzeros tile by
    tile (tile rows outer, tile columns inner, row-major inside a tile) in
    three preallocated arrays of length `nnz`, recording where each tile's
    entries start.  build_matrix_from_grid writes the listed values back into
    a zero matrix.

    The encoder here records tile (x, y)'s start in slot `x*py+y`, one slot per
    tile of the `px x py` grid.  helper.py:55 writes slot `x*px+y`, which
    overruns the `px*py` slots when px > py and makes two tiles share a slot
    when py > px >= 2; `AsWrittenSlot` and the lemmas after it model that
    line as written. */
module GridCoo {
  import opened Wrappers
  import opened Arith

  type Matrix = seq<seq<real>>

  /** An `N x K` matrix. */
  predicate IsMatrix(A: Matrix, N: nat, K: nat) {
    |A| == N && forall r | 0 <= r < N :: |A[r]| == K
  }

  /** Cell `(r, c)`, zero outside the matrix. */
  function Cell(A: Matrix, r: nat, c: nat): real {
    if r < |A| && c < |A[r]| then A[r][c] else 0.0
  }

  /** One listed nonzero: its row, its column and its value. */
  datatype Entry = Entry(row: nat, col: nat, val: real)

  datatype GridError = ZeroDivisionError | ValueError | IndexError

  // ---------------------------------------------------------------------
  // The order of the scan, one loop level at a time.

  /** Nonzeros of row `row`, columns `col0 .. col0 + j - 1`, left to right. */
  function RowScan(A: Matrix, row: nat, col0: nat, j: nat): seq<Entry>
    decreases j
  {
    if j == 0 then []
    else
      var c := col0 + j - 1;
      RowScan(A, row, col0, j - 1) + (if Cell(A, row, c) != 0.0 then [Entry(row, c, Cell(A, row, c))] else [])
  }

  /** Nonzeros of the first `i` rows of tile `(x, y)`. */
  function TileScan(A: Matrix, Nt: nat, Kt: nat, x: nat, y: nat, i: nat): seq<Entry>
    decreases i
  {
    if i == 0 then [] else TileScan(A, Nt, Kt, x, y, i - 1) + RowScan(A, x * Nt + i - 1, y * Kt, Kt)
  }

  /** Nonzeros of tiles `(x, 0) .. (x, y - 1)`. */
  function BandScan(A: Matrix, Nt: nat, Kt: nat, x: nat, y: nat): seq<Entry>
    decreases y
  {
    if y == 0 then [] else BandScan(A, Nt, Kt, x, y - 1) + TileScan(A, Nt, Kt, x, y - 1, Nt)
  }

  /** Nonzeros of the first `x` rows of tiles, `py` tiles each. */
  function GridScan(A: Matrix, Nt: nat, Kt: nat, py: nat, x: nat): seq<Entry>
    decreases x
  {
    if x == 0 then [] else GridScan(A, Nt, Kt, py, x - 1) + BandScan(A, Nt, Kt, x - 1, py)
  }

  /** The entries listed before tile `(x, y)` is visited. */
  function Before(A: Matrix, Nt: nat, Kt: nat, py: nat, x: nat, y: nat): seq<Entry> {
    GridScan(A, Nt, Kt, py, x) + BandScan(A, Nt, Kt, x, y)
  }

  // ---------------------------------------------------------------------
  // What a scan lists: exactly the nonzero cells of its region, once each,
  // with their values.

  /** The positions an entry list names. */
  function Positions(es: seq<Entry>): set<(nat, nat)> {
    set k | 0 <= k < |es| :: (es[k].row, es[k].col)
  }

  /** The nonzero cells of rows `r0 .. r1 - 1`, columns `c0 .. c1 - 1`. */
  function Nonzeros(A: Matrix, r0: nat, r1: nat, c0: nat, c1: nat): set<(nat, nat)> {
    set r: nat, c: nat | r0 <= r < r1 && c0 <= c < c1 && Cell(A, r, c) != 0.0 :: (r, c)
  }

  /** `es` lists each nonzero cell of the region once, with its value. */
  predicate Exact(A: Matrix, es: seq<Entry>, r0: nat, r1: nat, c0: nat, c1: nat) {
    && Positions(es) == Nonzeros(A, r0, r1, c0, c1)
    && |Positions(es)| == |es|
    && forall k | 0 <= k < |es| :: es[k].val == Cell(A, es[k].row, es[k].col)
  }

  lemma PositionsConcat(a: seq<Entry>, b: seq<Entry>)
    ensures Positions(a + b) == Positions(a) + Positions(b)
  {
    var ab := a + b;
    forall p | p in Positions(ab)
      ensures p in Positions(a) + Positions(b)
    {
      var k :| 0 <= k < |ab| && p == (ab[k].row, ab[k].col);
      if k >= |a| {
        assert p == (b[k - |a|].row, b[k - |a|].col);
      }
    }
    forall p | p in Positions(b)
      ensures p in Positions(ab)
    {
      var k :| 0 <= k < |b| && p == (b[k].row, b[k].col);
      assert ab[|a| + k] == b[k];
    }
    forall p | p in Positions(a)
      ensures p in Positions(ab)
    {
      var k :| 0 <= k < |a| && p == (a[k].row, a[k].col);
      assert ab[k] == a[k];
    }
  }

  /** Two exact lists of side-by-side regions join into one exact list. */
  lemma ExactJoinCols(A: Matrix, a: seq<Entry>, b: seq<Entry>, r0: nat, r1: nat, c0: nat, c1: nat, c2: nat)
    requires c0 <= c1 <= c2
    requires Exact(A, a, r0, r1, c0, c1) && Exact(A, b, r0, r1, c1, c2)
    ensures Exact(A, a + b, r0, r1, c0, c2)
  {
    PositionsConcat(a, b);
    var na, nb := Nonzeros(A, r0, r1, c0, c1), Nonzeros(A, r0, r1, c1, c2);
    assert na * nb == {} by {
      forall p | p in na ensures p !in nb {}
    }
    assert Nonzeros(A, r0, r1, c0, c2) == na + nb;
    var ab := a + b;
    forall k | 0 <= k < |ab|
      ensures ab[k].val == Cell(A, ab[k].row, ab[k].col)
    {
      if k >= |a| {
        assert ab[k] == b[k - |a|];
      }
    }
  }

  /** Two exact lists of stacked regions join into one exact list. */
  lemma ExactJoinRows(A: Matrix, a: seq<Entry>, b: seq<Entry>, r0: nat, r1: nat, r2: nat, c0: nat, c1: nat)
    requires r0 <= r1 <= r2
    requires Exact(A, a, r0, r1, c0, c1) && Exact(A, b, r1, r2, c0, c1)
    ensures Exact(A, a + b, r0, r2, c0, c1)
  {
    PositionsConcat(a, b);
    var na, nb := Nonzeros(A, r0, r1, c0, c1), Nonzeros(A, r1, r2, c0, c1);
    assert na * nb == {} by {
      forall p | p in na ensures p !in nb {}
    }
    assert Nonzeros(A, r0, r2, c0, c1) == na + nb;
    var ab := a + b;
    forall k | 0 <= k < |ab|
      ensures ab[k].val == Cell(A, ab[k].row, ab[k].col)
    {
      if k >= |a| {
        assert ab[k] == b[k - |a|];
      }
    }
  }

  lemma ExactEmpty(A: Matrix, r0: nat, r1: nat, c0: nat, c1: nat)
    requires r0 == r1 || c0 == c1
    ensures Exact(A, [], r0, r1, c0, c1)
  {
    assert Nonzeros(A, r0, r1, c0, c1) == {};
  }

  lemma {:induction false} RowScanExact(A: Matrix, row: nat, col0: nat, j: nat)
    ensures Exact(A, RowScan(A, row, col0, j), row, row + 1, col0, col0 + j)
    decreases j
  {
    if j == 0 {
      ExactEmpty(A, row, row + 1, col0, col0);
    } else {
      var c := col0 + j - 1;
      RowScanExact(A, row, col0, j - 1);
      var one := if Cell(A, row, c) != 0.0 then [Entry(row, c, Cell(A, row, c))] else [];
      assert Exact(A, one, row, row + 1, c, c + 1) by {
        if Cell(A, row, c) != 0.0 {
          assert (one[0].row, one[0].col) in Positions(one);
          assert Positions(one) == {(row, c)};
          assert Nonzeros(A, row, row + 1, c, c + 1) == {(row, c)};
        } else {
          assert Nonzeros(A, row, row + 1, c, c + 1) == {};
        }
      }
      ExactJoinCols(A, RowScan(A, row, col0, j - 1), one, row, row + 1, col0, c, c + 1);
    }
  }

  lemma {:induction false} TileScanExact(A: Matrix, Nt: nat, Kt: nat, x: nat, y: nat, i: nat)
    ensures Exact(A, TileScan(A, Nt, Kt, x, y, i), x * Nt, x * Nt + i, y * Kt, y * Kt + Kt)
    decreases i
  {
    if i == 0 {
      ExactEmpty(A, x * Nt, x * Nt, y * Kt, y * Kt + Kt);
    } else {
      TileScanExact(A, Nt, Kt, x, y, i - 1);
      RowScanExact(A, x * Nt + i - 1, y * Kt, Kt);
      ExactJoinRows(A, TileScan(A, Nt, Kt, x, y, i - 1), RowScan(A, x * Nt + i - 1, y * Kt, Kt),
                    x * Nt, x * Nt + i - 1, x * Nt + i, y * Kt, y * Kt + Kt);
    }
  }

  lemma {:induction false} BandScanExact(A: Matrix, Nt: nat, Kt: nat, x: nat, y: nat)
    ensures Exact(A, BandScan(A, Nt, Kt, x, y), x * Nt, x * Nt + Nt, 0, y * Kt)
    decreases y
  {
    if y == 0 {
      ExactEmpty(A, x * Nt, x * Nt + Nt, 0, 0);
    } else {
      var before, tile := BandScan(A, Nt, Kt, x, y - 1), TileScan(A, Nt, Kt, x, y - 1, Nt);
      var r0, r1 := x * Nt, x * Nt + Nt;
      var c1: nat, c2: nat := (y - 1) * Kt, y * Kt;
      BandScanExact(A, Nt, Kt, x, y - 1);
      TileScanExact(A, Nt, Kt, x, y - 1, Nt);
      MulSucc(y - 1, Kt);
      assert c2 == c1 + Kt;
      ExactJoinCols(A, before, tile, r0, r1, 0, c1, c2);
    }
  }

  lemma {:induction false} GridScanExact(A: Matrix, Nt: nat, Kt: nat, py: nat, x: nat)
    ensures Exact(A, GridScan(A, Nt, Kt, py, x), 0, x * Nt, 0, py * Kt)
    decreases x
  {
    if x == 0 {
      ExactEmpty(A, 0, 0, 0, py * Kt);
    } else {
      GridScanExact(A, Nt, Kt, py, x - 1);
      BandScanExact(A, Nt, Kt, x - 1, py);
      MulSucc(x - 1, Nt);
      ExactJoinRows(A, GridScan(A, Nt, Kt, py, x - 1), BandScan(A, Nt, Kt, x - 1, py),
                    0, (x - 1) * Nt, x * Nt, 0, py * Kt);
    }
  }

  // ---------------------------------------------------------------------
  // Visiting order: what is listed before a tile is a prefix of what is
  // listed before any later tile.

  lemma {:induction false} BandPrefix(A: Matrix, Nt: nat, Kt: nat, x: nat, y1: nat, y2: nat)
    requires y1 <= y2
    ensures BandScan(A, Nt, Kt, x, y1) <= BandScan(A, Nt, Kt, x, y2)
    decreases y2
  {
    if y1 < y2 {
      BandPrefix(A, Nt, Kt, x, y1, y2 - 1);
    }
  }

  lemma {:induction false} GridPrefix(A: Matrix, Nt: nat, Kt: nat, py: nat, x1: nat, x2: nat)
    requires x1 <= x2
    ensures GridScan(A, Nt, Kt, py, x1) <= GridScan(A, Nt, Kt, py, x2)
    decreases x2
  {
    if x1 < x2 {
      GridPrefix(A, Nt, Kt, py, x1, x2 - 1);
    }
  }

  lemma PrefixConcat(c: seq<Entry>, a: seq<Entry>, b: seq<Entry>)
    requires a <= b
    ensures c + a <= c + b
  {
    assert (c + b)[..|c + a|] == c + b[..|a|];
  }

  /** Tile `(x1, y1)` is visited no later than tile `(x2, y2)` exactly when
      what is listed before it is a prefix of what is listed before the other. */
  lemma BeforeOrder(A: Matrix, Nt: nat, Kt: nat, py: nat, x1: nat, y1: nat, x2: nat, y2: nat)
    requires y1 <= py && y2 <= py
    requires x1 < x2 || (x1 == x2 && y1 <= y2)
    ensures Before(A, Nt, Kt, py, x1, y1) <= Before(A, Nt, Kt, py, x2, y2)
  {
    var g1 := GridScan(A, Nt, Kt, py, x1);
    if x1 == x2 {
      BandPrefix(A, Nt, Kt, x1, y1, y2);
      PrefixConcat(g1, BandScan(A, Nt, Kt, x1, y1), BandScan(A, Nt, Kt, x1, y2));
    } else {
      BandPrefix(A, Nt, Kt, x1, y1, py);
      PrefixConcat(g1, BandScan(A, Nt, Kt, x1, y1), BandScan(A, Nt, Kt, x1, py));
      assert g1 + BandScan(A, Nt, Kt, x1, py) == GridScan(A, Nt, Kt, py, x1 + 1);
      GridPrefix(A, Nt, Kt, py, x1 + 1, x2);
      var g2 := GridScan(A, Nt, Kt, py, x2);
      assert g2 <= g2 + BandScan(A, Nt, Kt, x2, y2);
    }
  }

  /** Visiting tile `(x, y)` appends its own entries. */
  lemma BeforeNext(A: Matrix, Nt: nat, Kt: nat, py: nat, x: nat, y: nat)
    ensures Before(A, Nt, Kt, py, x, y) + TileScan(A, Nt, Kt, x, y, Nt) == Before(A, Nt, Kt, py, x, y + 1)
    ensures Before(A, Nt, Kt, py, x, py) == Before(A, Nt, Kt, py, x + 1, 0)
  {
    assert BandScan(A, Nt, Kt, x + 1, 0) == [];
  }

  // ---------------------------------------------------------------------
  // The encoding.

  /** Where the start of tile `(x, y)` is recorded: tiles in row-major
      order, one slot per tile of the `px x py` grid. */
  function Slot(px: nat, py: nat, x: nat, y: nat): (s: nat)
    requires x < px && y < py
    ensures s < px * py && s / py == x && s % py == y
  {
    JoinSplit(x, y, py, px);
    x * py + y
  }

  /** The arrays get_grid_format returns, as sequences. */
  datatype Grid = Grid(rows: seq<real>, cols: seq<real>, vals: seq<real>, ptr: seq<nat>)

  /** The number of nonzero cells of an `N x K` matrix. */
  function CountNonzero(A: Matrix, N: nat, K: nat): nat {
    |Nonzeros(A, 0, N, 0, K)|
  }

  /** get_grid_format(A, nnz, N, K, Nt, Kt): a zero tile size divides by
      zero, a negative `nnz` is refused by np.zeros, more nonzeros than `nnz`
      overrun the arrays; otherwise the listed entries followed by zeros. */
  function GridFormatSpec(A: Matrix, nnz: int, N: nat, K: nat, Nt: nat, Kt: nat): Result<Grid, GridError> {
    if Nt == 0 || Kt == 0 then Failure(ZeroDivisionError)
    else if nnz < 0 then Failure(ValueError)
    else
      var px, py := N / Nt, K / Kt;
      var es := GridScan(A, Nt, Kt, py, px);
      if |es| > nnz then Failure(IndexError)
      else
        var padded := es + seq(nnz - |es|, _ => Entry(0, 0, 0.0));
        Success(Grid(RowsOf(padded), ColsOf(padded), ValsOf(padded), Starts(A, Nt, Kt, px, py)))
  }

  function RowsOf(es: seq<Entry>): seq<real> {
    seq(|es|, k requires 0 <= k < |es| => es[k].row as real)
  }

  function ColsOf(es: seq<Entry>): seq<real> {
    seq(|es|, k requires 0 <= k < |es| => es[k].col as real)
  }

  function ValsOf(es: seq<Entry>): seq<real> {
    seq(|es|, k requires 0 <= k < |es| => es[k].val)
  }

  /** The recorded start of every tile, by slot. */
  function Starts(A: Matrix, Nt: nat, Kt: nat, px: nat, py: nat): seq<nat> {
    if py == 0 then []
    else seq(px * py, s requires 0 <= s < px * py => |Before(A, Nt, Kt, py, s / py, s % py)|)
  }

  /** The three entry arrays hold `es`, then zeros. */
  ghost predicate Holds(ai: array<real>, aj: array<real>, av: array<real>, es: seq<Entry>)
    reads ai, aj, av
  {
    && ai.Length == aj.Length == av.Length && |es| <= ai.Length
    && (forall k | 0 <= k < |es| :: ai[k] == es[k].row as real && aj[k] == es[k].col as real && av[k] == es[k].val)
    && (forall k | |es| <= k < ai.Length :: ai[k] == 0.0 && aj[k] == 0.0 && av[k] == 0.0)
  }

  lemma {:induction false} RowScanGrows(A: Matrix, row: nat, col0: nat, j1: nat, j2: nat)
    requires j1 <= j2
    ensures |RowScan(A, row, col0, j1)| <= |RowScan(A, row, col0, j2)|
    decreases j2
  {
    if j1 < j2 {
      RowScanGrows(A, row, col0, j1, j2 - 1);
    }
  }

  lemma {:induction false} TileScanGrows(A: Matrix, Nt: nat, Kt: nat, x: nat, y: nat, i1: nat, i2: nat)
    requires i1 <= i2
    ensures |TileScan(A, Nt, Kt, x, y, i1)| <= |TileScan(A, Nt, Kt, x, y, i2)|
    decreases i2
  {
    if i1 < i2 {
      TileScanGrows(A, Nt, Kt, x, y, i1, i2 - 1);
    }
  }

  /** The innermost loop: columns `col0 .. col0 + Kt - 1` of row `row`. */
  method ScanRow(A: Matrix, row: nat, col0: nat, Kt: nat, ai: array<real>, aj: array<real>, av: array<real>,
                 idx: nat, ghost pre: seq<Entry>) returns (r: Result<nat, GridError>)
    requires row < |A| && col0 + Kt <= |A[row]|
    requires ai != aj && aj != av && ai != av
    requires Holds(ai, aj, av, pre) && idx == |pre|
    modifies ai, aj, av
    ensures r.Success? <==> |pre + RowScan(A, row, col0, Kt)| <= ai.Length
    ensures r.Success? ==> r.value == |pre + RowScan(A, row, col0, Kt)| && Holds(ai, aj, av, pre + RowScan(A, row, col0, Kt))
    ensures r.Failure? ==> r.error == IndexError
  {
    var n := idx;
    var j := 0;
    while j < Kt
      invariant 0 <= j <= Kt
      invariant n == |pre + RowScan(A, row, col0, j)| && Holds(ai, aj, av, pre + RowScan(A, row, col0, j))
    {
      var col := col0 + j;
      if A[row][col] != 0.0 {
        if n >= ai.Length {
          RowScanGrows(A, row, col0, j + 1, Kt);
          return Failure(IndexError);
        }
        ai[n] := row as real;
        aj[n] := col as real;
        av[n] := A[row][col];
        n := n + 1;
      }
      j := j + 1;
    }
    r := Success(n);
  }

  /** The two loops over one tile's rows and columns. */
  method ScanTile(A: Matrix, Nt: nat, Kt: nat, x: nat, y: nat, ai: array<real>, aj: array<real>, av: array<real>,
                  idx: nat, ghost pre: seq<Entry>) returns (r: Result<nat, GridError>)
    requires x * Nt + Nt <= |A| && forall row | 0 <= row < |A| :: y * Kt + Kt <= |A[row]|
    requires ai != aj && aj != av && ai != av
    requires Holds(ai, aj, av, pre) && idx == |pre|
    modifies ai, aj, av
    ensures r.Success? <==> |pre + TileScan(A, Nt, Kt, x, y, Nt)| <= ai.Length
    ensures r.Success? ==> r.value == |pre + TileScan(A, Nt, Kt, x, y, Nt)| && Holds(ai, aj, av, pre + TileScan(A, Nt, Kt, x, y, Nt))
    ensures r.Failure? ==> r.error == IndexError
  {
    var n := idx;
    var i := 0;
    while i < Nt
      invariant 0 <= i <= Nt
      invariant n == |pre + TileScan(A, Nt, Kt, x, y, i)| && Holds(ai, aj, av, pre + TileScan(A, Nt, Kt, x, y, i))
    {
      ghost var done := pre + TileScan(A, Nt, Kt, x, y, i);
      var row := ScanRow(A, x * Nt + i, y * Kt, Kt, ai, aj, av, n, done);
      assert done + RowScan(A, x * Nt + i, y * Kt, Kt) == pre + TileScan(A, Nt, Kt, x, y, i + 1);
      if row.Failure? {
        TileScanGrows(A, Nt, Kt, x, y, i + 1, Nt);
        return Failure(IndexError);
      }
      n := row.value;
      i := i + 1;
    }
    r := Success(n);
  }

  /** A tile of the grid lies inside the matrix. */
  lemma TileInside(N: nat, Nt: nat, x: nat)
    requires Nt > 0 && x < N / Nt
    ensures x * Nt + Nt <= N
  {
    MulSucc(x, Nt);
    MulLe(x + 1, N / Nt, Nt);
    assert N == (N / Nt) * Nt + N % Nt;
  }

  /** The loop over the tiles of tile row `x`. */
  method ScanBand(A: Matrix, N: nat, K: nat, Nt: nat, Kt: nat, px: nat, py: nat, x: nat,
                  ai: array<real>, aj: array<real>, av: array<real>, gp: array<nat>, idx: nat)
    returns (r: Result<nat, GridError>)
    requires IsMatrix(A, N, K) && Nt > 0 && Kt > 0 && px == N / Nt && py == K / Kt && x < px
    requires ai != aj && aj != av && ai != av && gp.Length == px * py
    requires idx == |Before(A, Nt, Kt, py, x, 0)| && Holds(ai, aj, av, Before(A, Nt, Kt, py, x, 0))
    requires forall x', y' | 0 <= x' < x && 0 <= y' < py :: gp[Slot(px, py, x', y')] == |Before(A, Nt, Kt, py, x', y')|
    modifies ai, aj, av, gp
    ensures r.Success? ==> r.value == |Before(A, Nt, Kt, py, x + 1, 0)| && Holds(ai, aj, av, Before(A, Nt, Kt, py, x + 1, 0))
    ensures r.Success? ==> forall x', y' | 0 <= x' <= x && 0 <= y' < py :: gp[Slot(px, py, x', y')] == |Before(A, Nt, Kt, py, x', y')|
    ensures r.Failure? ==> r.error == IndexError && |GridScan(A, Nt, Kt, py, px)| > ai.Length
  {
    TileInside(N, Nt, x);
    var n := idx;
    var y := 0;
    while y < py
      invariant 0 <= y <= py
      invariant n == |Before(A, Nt, Kt, py, x, y)| && Holds(ai, aj, av, Before(A, Nt, Kt, py, x, y))
      invariant forall x', y' | (0 <= x' < x && 0 <= y' < py) || (x' == x && 0 <= y' < y) ::
        gp[Slot(px, py, x', y')] == |Before(A, Nt, Kt, py, x', y')|
    {
      gp[Slot(px, py, x, y)] := n;
      TileInside(K, Kt, y);
      var tile := ScanTile(A, Nt, Kt, x, y, ai, aj, av, n, Before(A, Nt, Kt, py, x, y));
      BeforeNext(A, Nt, Kt, py, x, y);
      if tile.Failure? {
        BeforeOrder(A, Nt, Kt, py, x, y + 1, px, 0);
        return Failure(IndexError);
      }
      n := tile.value;
      y := y + 1;
    }
    BeforeNext(A, Nt, Kt, py, x, py);
    r := Success(n);
  }

  /** The two outer loops: every tile in visiting order, its start recorded
      at its slot before it is scanned. */
  method ScanGrid(A: Matrix, N: nat, K: nat, Nt: nat, Kt: nat, px: nat, py: nat,
                  ai: array<real>, aj: array<real>, av: array<real>, gp: array<nat>) returns (r: Result<nat, GridError>)
    requires IsMatrix(A, N, K) && Nt > 0 && Kt > 0 && px == N / Nt && py == K / Kt
    requires ai != aj && aj != av && ai != av && gp.Length == px * py
    requires Holds(ai, aj, av, [])
    modifies ai, aj, av, gp
    ensures r.Success? <==> |GridScan(A, Nt, Kt, py, px)| <= ai.Length
    ensures r.Success? ==> Holds(ai, aj, av, GridScan(A, Nt, Kt, py, px))
    ensures r.Success? ==> forall x, y | 0 <= x < px && 0 <= y < py :: gp[Slot(px, py, x, y)] == |Before(A, Nt, Kt, py, x, y)|
    ensures r.Failure? ==> r.error == IndexError
  {
    var idx := 0;
    var x := 0;
    assert Before(A, Nt, Kt, py, 0, 0) == [];
    while x < px
      invariant 0 <= x <= px
      invariant idx == |Before(A, Nt, Kt, py, x, 0)| && Holds(ai, aj, av, Before(A, Nt, Kt, py, x, 0))
      invariant forall x', y' | 0 <= x' < x && 0 <= y' < py :: gp[Slot(px, py, x', y')] == |Before(A, Nt, Kt, py, x', y')|
    {
      var band := ScanBand(A, N, K, Nt, Kt, px, py, x, ai, aj, av, gp, idx);
      if band.Failure? {
        return Failure(IndexError);
      }
      idx := band.value;
      x := x + 1;
    }
    assert Before(A, Nt, Kt, py, px, 0) == GridScan(A, Nt, Kt, py, px);
    r := Success(idx);
  }

  /** Starts recorded at every tile's slot make up the start table. */
  lemma StartsBySlot(A: Matrix, Nt: nat, Kt: nat, px: nat, py: nat, g: seq<nat>)
    requires |g| == px * py
    requires forall x, y | 0 <= x < px && 0 <= y < py :: g[Slot(px, py, x, y)] == |Before(A, Nt, Kt, py, x, y)|
    ensures g == Starts(A, Nt, Kt, px, py)
  {
    if py > 0 {
      forall s | 0 <= s < px * py
        ensures g[s] == Starts(A, Nt, Kt, px, py)[s]
      {
        SplitJoin(s, py, px);
        assert s == s / py * py + s % py;
        assert s == Slot(px, py, s / py, s % py);
      }
    }
  }

  /** Arrays holding `es` and zeros read as the padded entry columns. */
  lemma HoldsColumns(ai: array<real>, aj: array<real>, av: array<real>, es: seq<Entry>)
    requires Holds(ai, aj, av, es)
    ensures var padded := es + seq(ai.Length - |es|, _ => Entry(0, 0, 0.0));
      ai[..] == RowsOf(padded) && aj[..] == ColsOf(padded) && av[..] == ValsOf(padded)
  {
  }

  /** get_grid_format with the tile starts recorded at `Slot`. */
  method GridFormat(A: Matrix, nnz: int, N: nat, K: nat, Nt: nat, Kt: nat) returns (r: Result<Grid, GridError>)
    requires IsMatrix(A, N, K)
    ensures r == GridFormatSpec(A, nnz, N, K, Nt, Kt)
  {
    if Nt == 0 || Kt == 0 {
      return Failure(ZeroDivisionError);
    }
    var px, py := N / Nt, K / Kt;
    if nnz < 0 {
      return Failure(ValueError);
    }
    var ai := new real[nnz](_ => 0.0);
    var aj := new real[nnz](_ => 0.0);
    var av := new real[nnz](_ => 0.0);
    var gp := new nat[px * py](_ => 0);
    var scanned := ScanGrid(A, N, K, Nt, Kt, px, py, ai, aj, av, gp);
    if scanned.Failure? {
      return Failure(IndexError);
    }
    HoldsColumns(ai, aj, av, GridScan(A, Nt, Kt, py, px));
    StartsBySlot(A, Nt, Kt, px, py, gp[..]);
    r := Success(Grid(ai[..], aj[..], av[..], gp[..]));
  }

  // ---------------------------------------------------------------------
  // Properties of the encoding.

  /** With tiles that divide the matrix, the scan lists every nonzero cell
      exactly once with its value, so their number is the nonzero count. */
  lemma EntriesExact(A: Matrix, N: nat, K: nat, Nt: nat, Kt: nat)
    requires Nt > 0 && Kt > 0 && N % Nt == 0 && K % Kt == 0
    ensures var es := GridScan(A, Nt, Kt, K / Kt, N / Nt);
      && Exact(A, es, 0, N, 0, K)
      && |es| == CountNonzero(A, N, K)
  {
    var px, py := N / Nt, K / Kt;
    GridScanExact(A, Nt, Kt, py, px);
    DivExact(N, Nt);
    DivExact(K, Kt);
    assert px * Nt == N && py * Kt == K;
  }

  /** get_grid_format fails exactly on a zero tile size, a negative `nnz` or
      an `nnz` below the number of nonzeros it finds. */
  lemma GridFormatFails(A: Matrix, nnz: int, N: nat, K: nat, Nt: nat, Kt: nat)
    ensures GridFormatSpec(A, nnz, N, K, Nt, Kt).Failure? <==>
      Nt == 0 || Kt == 0 || nnz < 0 || |GridScan(A, Nt, Kt, K / Kt, N / Nt)| > nnz
    ensures GridFormatSpec(A, nnz, N, K, Nt, Kt) == Failure(IndexError) <==>
      Nt > 0 && Kt > 0 && nnz >= 0 && |GridScan(A, Nt, Kt, K / Kt, N / Nt)| > nnz
  {
  }

  /** A successful encoding, cell by cell: the scan's entries then zeros,
      and at every tile's slot the number of entries listed before it. */
  lemma GridOf(A: Matrix, nnz: int, N: nat, K: nat, Nt: nat, Kt: nat)
    requires GridFormatSpec(A, nnz, N, K, Nt, Kt).Success?
    ensures Nt > 0 && Kt > 0
    ensures var g, es := GridFormatSpec(A, nnz, N, K, Nt, Kt).value, GridScan(A, Nt, Kt, K / Kt, N / Nt);
      && |es| <= nnz && |g.rows| == |g.cols| == |g.vals| == nnz
      && (forall k | 0 <= k < |es| :: g.rows[k] == es[k].row as real && g.cols[k] == es[k].col as real && g.vals[k] == es[k].val)
      && (forall k | |es| <= k < nnz :: g.rows[k] == 0.0 && g.cols[k] == 0.0 && g.vals[k] == 0.0)
      && |g.ptr| == (N / Nt) * (K / Kt)
      && forall x, y | 0 <= x < N / Nt && 0 <= y < K / Kt ::
        g.ptr[Slot(N / Nt, K / Kt, x, y)] == |Before(A, Nt, Kt, K / Kt, x, y)|
  {
  }

  /** A list that continues `b + t` holds `t` right after `b`. */
  lemma SliceOfPrefix(b: seq<Entry>, t: seq<Entry>, es: seq<Entry>)
    requires b + t <= es
    ensures |b| + |t| <= |es| && es[|b|..|b| + |t|] == t
  {
    assert es[..|b| + |t|] == b + t;
    assert (b + t)[|b|..] == t;
  }

  /** Tile `(x, y)`'s entries sit in the scan right after what is listed
      before the tile. */
  lemma TileSlice(A: Matrix, Nt: nat, Kt: nat, px: nat, py: nat, x: nat, y: nat)
    requires x < px && y < py
    ensures var es, b, t := GridScan(A, Nt, Kt, py, px), Before(A, Nt, Kt, py, x, y), TileScan(A, Nt, Kt, x, y, Nt);
      |b| + |t| <= |es| && es[|b|..|b| + |t|] == t
  {
    TileThenRest(A, Nt, Kt, px, py, x, y);
    SliceOfPrefix(Before(A, Nt, Kt, py, x, y), TileScan(A, Nt, Kt, x, y, Nt), GridScan(A, Nt, Kt, py, px));
  }

  /** What is listed before tile `(x, y)`, then the tile's own entries, start
      the whole scan. */
  lemma TileThenRest(A: Matrix, Nt: nat, Kt: nat, px: nat, py: nat, x: nat, y: nat)
    requires x < px && y < py
    ensures Before(A, Nt, Kt, py, x, y) + TileScan(A, Nt, Kt, x, y, Nt) <= GridScan(A, Nt, Kt, py, px)
  {
    BeforeNext(A, Nt, Kt, py, x, y);
    BeforeWhole(A, Nt, Kt, px, py, x, y + 1);
  }

  /** What is listed before any tile starts the whole scan. */
  lemma BeforeWhole(A: Matrix, Nt: nat, Kt: nat, px: nat, py: nat, x: nat, y: nat)
    requires x < px && y <= py
    ensures Before(A, Nt, Kt, py, x, y) <= GridScan(A, Nt, Kt, py, px)
  {
    BeforeOrder(A, Nt, Kt, py, x, y, px, 0);
    var whole := GridScan(A, Nt, Kt, py, px);
    assert BandScan(A, Nt, Kt, px, 0) == [];
    assert whole + [] == whole;
  }

  /** Every entry of a tile's scan is a nonzero cell of that tile, with its value. */
  lemma TileScanInside(A: Matrix, Nt: nat, Kt: nat, x: nat, y: nat, k: nat)
    requires k < |TileScan(A, Nt, Kt, x, y, Nt)|
    ensures var e := TileScan(A, Nt, Kt, x, y, Nt)[k];
      && x * Nt <= e.row < x * Nt + Nt && y * Kt <= e.col < y * Kt + Kt
      && e.val == Cell(A, e.row, e.col) != 0.0
  {
    var t := TileScan(A, Nt, Kt, x, y, Nt);
    TileScanExact(A, Nt, Kt, x, y, Nt);
    assert (t[k].row, t[k].col) in Positions(t);
  }

  /** The entries from a tile's recorded start up to the next tile's are that
      tile's nonzeros: inside the tile, with the matrix's values, none zero. */
  lemma TileEntries(A: Matrix, nnz: int, N: nat, K: nat, Nt: nat, Kt: nat, x: nat, y: nat, k: nat)
    requires GridFormatSpec(A, nnz, N, K, Nt, Kt).Success?
    requires x < N / Nt && y < K / Kt
    requires var g := GridFormatSpec(A, nnz, N, K, Nt, Kt).value;
      var start := g.ptr[Slot(N / Nt, K / Kt, x, y)];
      start <= k < start + |TileScan(A, Nt, Kt, x, y, Nt)|
    ensures var g := GridFormatSpec(A, nnz, N, K, Nt, Kt).value;
      && k < nnz
      && g.rows[k] == g.rows[k].Floor as real && g.cols[k] == g.cols[k].Floor as real
      && x * Nt <= g.rows[k].Floor < x * Nt + Nt && y * Kt <= g.cols[k].Floor < y * Kt + Kt
      && g.vals[k] == Cell(A, g.rows[k].Floor, g.cols[k].Floor) != 0.0
  {
    var px, py := N / Nt, K / Kt;
    var g := GridFormatSpec(A, nnz, N, K, Nt, Kt).value;
    GridOf(A, nnz, N, K, Nt, Kt);
    var es := GridScan(A, Nt, Kt, py, px);
    ScanEntryInTile(A, Nt, Kt, px, py, x, y, k);
    var e := es[k];
    assert g.rows[k] == e.row as real && g.cols[k] == e.col as real && g.vals[k] == e.val;
    assert g.rows[k].Floor == e.row && g.cols[k].Floor == e.col;
  }

  /** The scan's entries from tile `(x, y)`'s start on, as many as the tile
      has, lie inside that tile. */
  lemma ScanEntryInTile(A: Matrix, Nt: nat, Kt: nat, px: nat, py: nat, x: nat, y: nat, k: nat)
    requires x < px && y < py
    requires |Before(A, Nt, Kt, py, x, y)| <= k < |Before(A, Nt, Kt, py, x, y)| + |TileScan(A, Nt, Kt, x, y, Nt)|
    ensures k < |GridScan(A, Nt, Kt, py, px)|
    ensures var e := GridScan(A, Nt, Kt, py, px)[k];
      && x * Nt <= e.row < x * Nt + Nt && y * Kt <= e.col < y * Kt + Kt
      && e.val == Cell(A, e.row, e.col) != 0.0
  {
    var es, b, t := GridScan(A, Nt, Kt, py, px), Before(A, Nt, Kt, py, x, y), TileScan(A, Nt, Kt, x, y, Nt);
    TileThenRest(A, Nt, Kt, px, py, x, y);
    PrefixEntry(b, t, es, k);
    TileScanInside(A, Nt, Kt, x, y, k - |b|);
  }

  /** Entry `k` of a list that continues `b + t` is entry `k - |b|` of `t`. */
  lemma PrefixEntry(b: seq<Entry>, t: seq<Entry>, es: seq<Entry>, k: nat)
    requires b + t <= es && |b| <= k < |b| + |t|
    ensures k < |es| && es[k] == t[k - |b|]
  {
    assert es[k] == (b + t)[k];
  }

  /** The next tile's start is where this tile's entries end. */
  lemma TileEnds(A: Matrix, nnz: int, N: nat, K: nat, Nt: nat, Kt: nat, x: nat, y: nat)
    requires GridFormatSpec(A, nnz, N, K, Nt, Kt).Success?
    requires x < N / Nt && y < K / Kt
    ensures var g, px, py := GridFormatSpec(A, nnz, N, K, Nt, Kt).value, N / Nt, K / Kt;
      var end := g.ptr[Slot(px, py, x, y)] + |TileScan(A, Nt, Kt, x, y, Nt)|;
      && end <= nnz
      && (y + 1 < py ==> end == g.ptr[Slot(px, py, x, y + 1)])
      && (y + 1 == py && x + 1 < px ==> end == g.ptr[Slot(px, py, x + 1, 0)])
  {
    var px, py := N / Nt, K / Kt;
    var g := GridFormatSpec(A, nnz, N, K, Nt, Kt).value;
    GridOf(A, nnz, N, K, Nt, Kt);
    TileSlice(A, Nt, Kt, px, py, x, y);
    BeforeNext(A, Nt, Kt, py, x, y);
    BeforeNext(A, Nt, Kt, py, x, py);
    var end := |Before(A, Nt, Kt, py, x, y + 1)|;
    assert g.ptr[Slot(px, py, x, y)] + |TileScan(A, Nt, Kt, x, y, Nt)| == end;
    if y + 1 < py {
      assert g.ptr[Slot(px, py, x, y + 1)] == end;
    } else if x + 1 < px {
      assert g.ptr[Slot(px, py, x + 1, 0)] == |Before(A, Nt, Kt, py, x + 1, 0)|;
    }
  }

  /** The start table never decreases along the slots. */
  lemma StartsMonotone(A: Matrix, Nt: nat, Kt: nat, px: nat, py: nat, s1: nat, s2: nat)
    requires s1 <= s2 < |Starts(A, Nt, Kt, px, py)|
    ensures Starts(A, Nt, Kt, px, py)[s1] <= Starts(A, Nt, Kt, px, py)[s2]
  {
    assert py > 0 && s2 < px * py;
    SlotsInOrder(px, py, s1, s2);
    var x1, y1, x2, y2 := s1 / py, s1 % py, s2 / py, s2 % py;
    BeforeOrder(A, Nt, Kt, py, x1, y1, x2, y2);
    var starts := Starts(A, Nt, Kt, px, py);
    assert starts[s1] == |Before(A, Nt, Kt, py, x1, y1)|;
    assert starts[s2] == |Before(A, Nt, Kt, py, x2, y2)|;
  }

  /** Slots in increasing order name tiles in visiting order. */
  lemma SlotsInOrder(px: nat, py: nat, s1: nat, s2: nat)
    requires py > 0 && s1 <= s2 < px * py
    ensures s1 % py < py && s2 % py < py
    ensures s1 / py < s2 / py || (s1 / py == s2 / py && s1 % py <= s2 % py)
  {
    var x1, y1, x2, y2 := s1 / py, s1 % py, s2 / py, s2 % py;
    SplitJoin(s1, py, px);
    SplitJoin(s2, py, px);
    if x1 > x2 {
      MulLe(x2 + 1, x1, py);
      MulSucc(x2, py);
      assert false;
    }
  }

  /** Tile starts never decrease along the slots. */
  lemma StartsSorted(A: Matrix, nnz: int, N: nat, K: nat, Nt: nat, Kt: nat, s1: nat, s2: nat)
    requires GridFormatSpec(A, nnz, N, K, Nt, Kt).Success?
    requires s1 <= s2 < |GridFormatSpec(A, nnz, N, K, Nt, Kt).value.ptr|
    ensures GridFormatSpec(A, nnz, N, K, Nt, Kt).value.ptr[s1] <= GridFormatSpec(A, nnz, N, K, Nt, Kt).value.ptr[s2]
  {
    StartsMonotone(A, Nt, Kt, N / Nt, K / Kt, s1, s2);
  }

  // ---------------------------------------------------------------------
  // The decoding.

  function Zeros(N: nat, K: nat): (m: Matrix)
    ensures IsMatrix(m, N, K)
  {
    seq(N, _ => seq(K, _ => 0.0))
  }

  /** numpy indexing of an axis of length `n`: negative indices count from the end. */
  function NumpyIndex(i: int, n: nat): (r: Option<nat>)
    ensures r.Some? <==> -(n as int) <= i < n
    ensures r.Some? ==> r.value < n && (r.value == i || r.value == i + n)
  {
    if 0 <= i < n then Some(i) else if -(n as int) <= i < 0 then Some(i + n) else None
  }

  /** build_matrix_from_grid after the first `n` entries have been written. */
  function Build(N: nat, K: nat, ai: seq<real>, aj: seq<real>, av: seq<real>, n: nat): (r: Result<Matrix, GridError>)
    requires n <= |av|
    ensures r.Success? ==> IsMatrix(r.value, N, K)
    ensures r.Failure? ==> r.error == IndexError
    decreases n
  {
    if n == 0 then Success(Zeros(N, K))
    else
      var m :- Build(N, K, ai, aj, av, n - 1);
      var k := n - 1;
      if k >= |ai| || k >= |aj| then Failure(IndexError)
      else
        var r := NumpyIndex(TruncReal(ai[k]), N);
        var c := NumpyIndex(TruncReal(aj[k]), K);
        if r.None? || c.None? then Failure(IndexError)
        else Success(m[r.value := m[r.value][c.value := av[k]]])
  }

  /** Once a write fails, the whole build fails. */
  lemma {:induction false} BuildFailsOnward(N: nat, K: nat, ai: seq<real>, aj: seq<real>, av: seq<real>, i: nat, n: nat)
    requires i <= n <= |av| && Build(N, K, ai, aj, av, i).Failure?
    ensures Build(N, K, ai, aj, av, n) == Failure(IndexError)
    decreases n - i
  {
    if i < n {
      BuildFailsOnward(N, K, ai, aj, av, i + 1, n);
    }
  }

  /** build_matrix_from_grid; the tile starts are accepted and never read. */
  method BuildMatrix(N: nat, K: nat, ai: seq<real>, aj: seq<real>, av: seq<real>, gp: seq<nat>)
    returns (r: Result<Matrix, GridError>)
    ensures r == Build(N, K, ai, aj, av, |av|)
  {
    var m := new real[N, K]((_, _) => 0.0);
    var i := 0;
    while i < |av|
      invariant 0 <= i <= |av|
      invariant Build(N, K, ai, aj, av, i).Success?
      invariant forall r, c | 0 <= r < N && 0 <= c < K :: m[r, c] == Build(N, K, ai, aj, av, i).value[r][c]
    {
      if i >= |ai| || i >= |aj| {
        BuildFailsOnward(N, K, ai, aj, av, i + 1, |av|);
        return Failure(IndexError);
      }
      var row := NumpyIndex(TruncReal(ai[i]), N);
      var col := NumpyIndex(TruncReal(aj[i]), K);
      if row.None? || col.None? {
        BuildFailsOnward(N, K, ai, aj, av, i + 1, |av|);
        return Failure(IndexError);
      }
      m[row.value, col.value] := av[i];
      i := i + 1;
    }
    var built := seq(N, r requires 0 <= r < N reads m => seq(K, c requires 0 <= c < K reads m => m[r, c]));
    ghost var spec := Build(N, K, ai, aj, av, |av|).value;
    forall r | 0 <= r < N
      ensures built[r] == spec[r]
    {
      forall c | 0 <= c < K
        ensures built[r][c] == spec[r][c]
      {
      }
    }
    assert built == spec;
    r := Success(built);
  }

  /** The positions the first `n` entries write to. */
  function Written(ai: seq<real>, aj: seq<real>, n: nat): set<(int, int)>
    requires n <= |ai| && n <= |aj|
  {
    set k | 0 <= k < n :: (TruncReal(ai[k]), TruncReal(aj[k]))
  }

  /** One more in-bounds entry writes its value to its cell and nothing else. */
  lemma BuildStep(N: nat, K: nat, ai: seq<real>, aj: seq<real>, av: seq<real>, k: nat, r: nat, c: nat)
    requires k < |av| && k < |ai| && k < |aj| && Build(N, K, ai, aj, av, k).Success?
    requires 0 <= TruncReal(ai[k]) < N && 0 <= TruncReal(aj[k]) < K && r < N && c < K
    ensures Build(N, K, ai, aj, av, k + 1).Success?
    ensures Build(N, K, ai, aj, av, k + 1).value[r][c]
      == if r == TruncReal(ai[k]) && c == TruncReal(aj[k]) then av[k] else Build(N, K, ai, aj, av, k).value[r][c]
  {
    var rr, cc := TruncReal(ai[k]), TruncReal(aj[k]);
    assert NumpyIndex(rr, N) == Some(rr) && NumpyIndex(cc, K) == Some(cc);
  }

  /** The positions written by `k + 1` entries: those of `k` entries and entry `k`'s. */
  lemma WrittenStep(ai: seq<real>, aj: seq<real>, k: nat, r: int, c: int)
    requires k < |ai| && k < |aj|
    ensures (r, c) in Written(ai, aj, k + 1)
      <==> (r, c) in Written(ai, aj, k) || (r == TruncReal(ai[k]) && c == TruncReal(aj[k]))
  {
    if (r, c) in Written(ai, aj, k + 1) && (r, c) !in Written(ai, aj, k) {
      var k' :| 0 <= k' < k + 1 && (r, c) == (TruncReal(ai[k']), TruncReal(aj[k']));
      assert k' == k;
    }
  }

  /** Entries inside the matrix whose values agree with `A` rebuild `A` on
      every cell they name and leave every other cell zero. */
  lemma {:induction false} BuildCells(A: Matrix, N: nat, K: nat, ai: seq<real>, aj: seq<real>, av: seq<real>, n: nat)
    requires n <= |av| && n <= |ai| && n <= |aj|
    requires forall k | 0 <= k < n :: 0 <= TruncReal(ai[k]) < N && 0 <= TruncReal(aj[k]) < K
    requires forall k | 0 <= k < n :: av[k] == Cell(A, TruncReal(ai[k]), TruncReal(aj[k]))
    ensures Build(N, K, ai, aj, av, n).Success?
    ensures forall r, c | 0 <= r < N && 0 <= c < K ::
      Build(N, K, ai, aj, av, n).value[r][c] == if (r, c) in Written(ai, aj, n) then Cell(A, r, c) else 0.0
    decreases n
  {
    if n > 0 {
      var k := n - 1;
      BuildCells(A, N, K, ai, aj, av, k);
      BuildStep(N, K, ai, aj, av, k, 0, 0);
      forall r, c | 0 <= r < N && 0 <= c < K
        ensures Build(N, K, ai, aj, av, n).value[r][c] == if (r, c) in Written(ai, aj, n) then Cell(A, r, c) else 0.0
      {
        BuildStep(N, K, ai, aj, av, k, r, c);
        WrittenStep(ai, aj, k, r, c);
      }
    }
  }

  /** An exact list of an `N x K` matrix's nonzeros rebuilds the matrix. */
  lemma RebuildExact(A: Matrix, N: nat, K: nat, es: seq<Entry>)
    requires IsMatrix(A, N, K) && Exact(A, es, 0, N, 0, K)
    ensures Build(N, K, RowsOf(es), ColsOf(es), ValsOf(es), |es|) == Success(A)
  {
    var rows, cols, vals := RowsOf(es), ColsOf(es), ValsOf(es);
    forall k | 0 <= k < |es|
      ensures TruncReal(rows[k]) == es[k].row < N && TruncReal(cols[k]) == es[k].col < K
    {
      assert (es[k].row, es[k].col) in Positions(es);
    }
    BuildCells(A, N, K, rows, cols, vals, |es|);
    var b := Build(N, K, rows, cols, vals, |es|).value;
    forall r | 0 <= r < N
      ensures b[r] == A[r]
    {
      forall c | 0 <= c < K
        ensures b[r][c] == A[r][c]
      {
        if A[r][c] != 0.0 {
          assert (r, c) in Nonzeros(A, 0, N, 0, K);
          assert (r, c) in Positions(es);
          var k :| 0 <= k < |es| && (r, c) == (es[k].row, es[k].col);
          assert (TruncReal(rows[k]), TruncReal(cols[k])) in Written(rows, cols, |es|);
        }
      }
    }
    assert b == A;
  }

  /** The module's own test: encoding with the exact nonzero count and
      decoding gives the matrix back, when the tiles divide it. */
  lemma RoundTrip(A: Matrix, N: nat, K: nat, Nt: nat, Kt: nat)
    requires IsMatrix(A, N, K) && Nt > 0 && Kt > 0 && N % Nt == 0 && K % Kt == 0
    ensures GridFormatSpec(A, CountNonzero(A, N, K), N, K, Nt, Kt).Success?
    ensures var g := GridFormatSpec(A, CountNonzero(A, N, K), N, K, Nt, Kt).value;
      Build(N, K, g.rows, g.cols, g.vals, |g.vals|) == Success(A)
  {
    EntriesExact(A, N, K, Nt, Kt);
    var es := GridScan(A, Nt, Kt, K / Kt, N / Nt);
    assert es + seq(0, _ => Entry(0, 0, 0.0)) == es;
    RebuildExact(A, N, K, es);
  }

  /** A last write of zero at `(0, 0)` leaves that cell zero. */
  lemma BuildLastZero(N: nat, K: nat, ai: seq<real>, aj: seq<real>, av: seq<real>, n: nat)
    requires 0 < n <= |av| && n <= |ai| && n <= |aj| && N > 0 && K > 0
    requires ai[n - 1] == 0.0 && aj[n - 1] == 0.0 && av[n - 1] == 0.0
    requires Build(N, K, ai, aj, av, n).Success?
    ensures Build(N, K, ai, aj, av, n).value[0][0] == 0.0
  {
  }

  /** The count must be exact: a smaller one overruns the arrays, and a larger
      one leaves zero entries at `(0, 0)` whose write clears that cell. */
  lemma CountMustBeExact(A: Matrix, nnz: int, N: nat, K: nat, Nt: nat, Kt: nat)
    requires IsMatrix(A, N, K) && Nt > 0 && Kt > 0 && N % Nt == 0 && K % Kt == 0
    ensures 0 <= nnz < CountNonzero(A, N, K) ==> GridFormatSpec(A, nnz, N, K, Nt, Kt) == Failure(IndexError)
    ensures nnz > CountNonzero(A, N, K) && N > 0 && K > 0 && A[0][0] != 0.0 ==>
      && GridFormatSpec(A, nnz, N, K, Nt, Kt).Success?
      && var g := GridFormatSpec(A, nnz, N, K, Nt, Kt).value;
        Build(N, K, g.rows, g.cols, g.vals, |g.vals|) != Success(A)
  {
    EntriesExact(A, N, K, Nt, Kt);
    GridFormatFails(A, nnz, N, K, Nt, Kt);
    if nnz > CountNonzero(A, N, K) && N > 0 && K > 0 && A[0][0] != 0.0 {
      var g := GridFormatSpec(A, nnz, N, K, Nt, Kt).value;
      GridOf(A, nnz, N, K, Nt, Kt);
      if Build(N, K, g.rows, g.cols, g.vals, nnz).Success? {
        BuildLastZero(N, K, g.rows, g.cols, g.vals, nnz);
      }
    }
  }

  // ---------------------------------------------------------------------
  // The start table as written.

  /** helper.py computes the slot of tile `(x, y)` as `x * px + y`. */
  function AsWrittenSlot(px: nat, py: nat, x: nat, y: nat): nat {
    x * px + y
  }

  /** More tile rows than tile columns: the as-written slot of the last tile
      lies outside the `px * py` array, so the encoder raises an IndexError
      whatever `nnz` is. */
  lemma AsWrittenSlotOverruns(px: nat, py: nat)
    requires px > py >= 1
    ensures AsWrittenSlot(px, py, px - 1, py - 1) >= px * py
  {
    var d := px - py;
    assert px * px == px * py + px * d;
    MulLe(1, px - 1, d);
    assert (px - 1) * d >= d >= 1;
    assert AsWrittenSlot(px, py, px - 1, py - 1) == (px - 1) * py + (px - 1) * d + py - 1;
  }

  /** More tile columns than tile rows (and at least two rows): tiles
      (0, px) and (1, 0) are both on the grid and get the same as-written
      slot, so one tile's start is overwritten. */
  lemma AsWrittenSlotShared(px: nat, py: nat)
    requires py > px >= 2
    ensures px < py && 1 < px
    ensures AsWrittenSlot(px, py, 0, px) == AsWrittenSlot(px, py, 1, 0) == px
  {
  }

  /** On a 2 x 3 grid the six tiles get as-written slots 0, 1, 2, 2, 3, 4:
      tiles (0, 2) and (1, 0) share slot 2, so one start is overwritten, and
      slot 5 is never written. */
  lemma AsWrittenSlotCollides()
    ensures AsWrittenSlot(2, 3, 0, 2) == AsWrittenSlot(2, 3, 1, 0) == 2
    ensures [AsWrittenSlot(2, 3, 0, 0), AsWrittenSlot(2, 3, 0, 1), AsWrittenSlot(2, 3, 0, 2),
             AsWrittenSlot(2, 3, 1, 0), AsWrittenSlot(2, 3, 1, 1), AsWrittenSlot(2, 3, 1, 2)] == [0, 1, 2, 2, 3, 4]
  {
  }

  /** On square grids, as in the module's own test, both slots agree. */
  lemma SlotsAgreeWhenSquare(px: nat, py: nat, x: nat, y: nat)
    requires px == py && x < px && y < py
    ensures AsWrittenSlot(px, py, x, y) == Slot(px, py, x, y)
  {
  }

  /** Every slot of the start table belongs to exactly one tile. */
  lemma SlotOnto(px: nat, py: nat, s: nat)
    requires s < px * py
    ensures py > 0 && s / py < px && Slot(px, py, s / py, s % py) == s
  {
    SplitJoin(s, py, px);
  }
}
