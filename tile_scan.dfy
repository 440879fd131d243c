/** Worst-tile array lengths of the grid sparse formats (check_memory.c).

    A dense `n x m` matrix, stored row-major in one buffer, is cut into
    `Py x Px` tiles of `CeilDiv(n, Py) x CeilDiv(m, Px)` cells; cells of a tile
    that fall past row `n` or column `m` are skipped.  For each format the scan
    reports, over all tiles, the largest length each per-tile array needs. */
module TileScan {
  import opened Arith
  import opened Wrappers

  predicate Shaped(mat: seq<real>, n: nat, m: nat) {
    |mat| == n * m
  }

  /** Cell (r, c) of the row-major buffer. */
  function At(mat: seq<real>, n: nat, m: nat, r: nat, c: nat): real
    requires Shaped(mat, n, m) && r < n && c < m
  {
    CellInBuffer(n, m, r, c);
    mat[r * m + c]
  }

  function Nz(x: real): nat {
    if x != 0.0 then 1 else 0
  }

  /** How many of the `ext` rows (or columns) starting at `base` lie below `total`. */
  function InBounds(total: nat, base: nat, ext: nat): (k: nat)
    ensures k <= ext
    ensures k > 0 ==> base + k <= total
    ensures base < total ==> base + k == total || k == ext
    ensures base >= total ==> k == 0
  {
    if base >= total then 0
    else if total - base < ext then total - base
    else ext
  }

  /** Rows of tile row `i` inside the matrix, columns of tile column `j` inside it. */
  function TileRows(n: nat, Py: nat, i: nat): nat
    requires Py >= 1
  {
    InBounds(n, CeilDiv(n, Py) * i, CeilDiv(n, Py))
  }

  function TileCols(m: nat, Px: nat, j: nat): nat
    requires Px >= 1
  {
    InBounds(m, CeilDiv(m, Px) * j, CeilDiv(m, Px))
  }

  /** Nonzeros of row `r` in columns [c0, c0 + k). */
  function RowSegNnz(mat: seq<real>, n: nat, m: nat, r: nat, c0: nat, k: nat): nat
    requires Shaped(mat, n, m) && r < n && (k > 0 ==> c0 + k <= m)
    decreases k
  {
    if k == 0 then 0
    else RowSegNnz(mat, n, m, r, c0, k - 1) + Nz(At(mat, n, m, r, c0 + k - 1))
  }

  /** Nonzeros of column `c` in rows [r0, r0 + k). */
  function ColSegNnz(mat: seq<real>, n: nat, m: nat, c: nat, r0: nat, k: nat): nat
    requires Shaped(mat, n, m) && c < m && (k > 0 ==> r0 + k <= n)
    decreases k
  {
    if k == 0 then 0
    else ColSegNnz(mat, n, m, c, r0, k - 1) + Nz(At(mat, n, m, r0 + k - 1, c))
  }

  /** Nonzeros of the block rows [r0, r0 + h) x columns [c0, c0 + w), row by row. */
  function BlockByRows(mat: seq<real>, n: nat, m: nat, r0: nat, h: nat, c0: nat, w: nat): nat
    requires Shaped(mat, n, m) && (h > 0 ==> r0 + h <= n) && (w > 0 ==> c0 + w <= m)
    decreases h
  {
    if h == 0 then 0
    else BlockByRows(mat, n, m, r0, h - 1, c0, w) + RowSegNnz(mat, n, m, r0 + h - 1, c0, w)
  }

  /** The same block, column by column (the CSC traversal order). */
  function BlockByCols(mat: seq<real>, n: nat, m: nat, r0: nat, h: nat, c0: nat, w: nat): nat
    requires Shaped(mat, n, m) && (h > 0 ==> r0 + h <= n) && (w > 0 ==> c0 + w <= m)
    decreases w
  {
    if w == 0 then 0
    else BlockByCols(mat, n, m, r0, h, c0, w - 1) + ColSegNnz(mat, n, m, c0 + w - 1, r0, h)
  }

  /** Nonzeros of tile (i, j). */
  function TileNnz(mat: seq<real>, n: nat, m: nat, Px: nat, Py: nat, i: nat, j: nat): nat
    requires Shaped(mat, n, m) && Px >= 1 && Py >= 1
  {
    BlockByRows(mat, n, m, CeilDiv(n, Py) * i, TileRows(n, Py, i),
                CeilDiv(m, Px) * j, TileCols(m, Px, j))
  }

  /** Nonzeros of the `r`-th in-bounds row of tile (i, j). */
  function TileRowNnz(mat: seq<real>, n: nat, m: nat, Px: nat, Py: nat, i: nat, j: nat, r: nat): nat
    requires Shaped(mat, n, m) && Px >= 1 && Py >= 1 && r < TileRows(n, Py, i)
  {
    RowSegNnz(mat, n, m, CeilDiv(n, Py) * i + r, CeilDiv(m, Px) * j, TileCols(m, Px, j))
  }

  /** `v` is the largest tile nonzero count. */
  predicate IsTileMaximum(mat: seq<real>, n: nat, m: nat, Px: nat, Py: nat, v: nat)
    requires Shaped(mat, n, m) && Px >= 1 && Py >= 1
  {
    && (forall i, j | 0 <= i < Py && 0 <= j < Px :: TileNnz(mat, n, m, Px, Py, i, j) <= v)
    && (exists i, j | 0 <= i < Py && 0 <= j < Px :: TileNnz(mat, n, m, Px, Py, i, j) == v)
  }

  /** `v` is the largest count of nonzeros in one in-bounds row of one tile
      (0 when no tile has such a row). */
  predicate IsRowSegMaximum(mat: seq<real>, n: nat, m: nat, Px: nat, Py: nat, v: nat)
    requires Shaped(mat, n, m) && Px >= 1 && Py >= 1
  {
    && (forall i, j, r | 0 <= i < Py && 0 <= j < Px && 0 <= r < TileRows(n, Py, i) ::
          TileRowNnz(mat, n, m, Px, Py, i, j, r) <= v)
    && (v == 0 || exists i, j, r | 0 <= i < Py && 0 <= j < Px && 0 <= r < TileRows(n, Py, i) ::
          TileRowNnz(mat, n, m, Px, Py, i, j, r) == v)
  }

  /** `v` is the largest CSR row-pointer length: in-bounds rows plus one. */
  predicate IsRowPtrMaximum(n: nat, Py: nat, v: nat)
    requires Py >= 1
  {
    && (forall i | 0 <= i < Py :: TileRows(n, Py, i) + 1 <= v)
    && (exists i | 0 <= i < Py :: TileRows(n, Py, i) + 1 == v)
  }

  /** `v` is the largest CSC column-pointer length: in-bounds columns plus one. */
  predicate IsColPtrMaximum(m: nat, Px: nat, v: nat)
    requires Px >= 1
  {
    && (forall j | 0 <= j < Px :: TileCols(m, Px, j) + 1 <= v)
    && (exists j | 0 <= j < Px :: TileCols(m, Px, j) + 1 == v)
  }

  /** The innermost loop of the row-major scans: nonzeros of row `globalRow`
      in the columns of a tile starting at `colBase`, stopping at column `m`. */
  method RowSegment(mat: seq<real>, n: nat, m: nat, globalRow: nat, colBase: nat, gridWidth: nat)
    returns (count: nat)
    requires Shaped(mat, n, m) && globalRow < n
    ensures count == RowSegNnz(mat, n, m, globalRow, colBase, InBounds(m, colBase, gridWidth))
  {
    ghost var cols := InBounds(m, colBase, gridWidth);
    count := 0;
    var gridCol := 0;
    while gridCol < gridWidth
      invariant gridCol <= cols
      invariant count == RowSegNnz(mat, n, m, globalRow, colBase, gridCol)
    {
      var globalCol := colBase + gridCol;
      if globalCol >= m {
        break;
      }
      CellInBuffer(n, m, globalRow, globalCol);
      if mat[globalRow * m + globalCol] != 0.0 {
        count := count + 1;
      }
      gridCol := gridCol + 1;
    }
  }

  /** The innermost loop of the CSC scan: nonzeros of column `globalCol` in
      the rows of a tile starting at `rowBase`, stopping at row `n`. */
  method ColSegment(mat: seq<real>, n: nat, m: nat, globalCol: nat, rowBase: nat, gridHeight: nat)
    returns (count: nat)
    requires Shaped(mat, n, m) && globalCol < m
    ensures count == ColSegNnz(mat, n, m, globalCol, rowBase, InBounds(n, rowBase, gridHeight))
  {
    ghost var rows := InBounds(n, rowBase, gridHeight);
    count := 0;
    var gridRow := 0;
    while gridRow < gridHeight
      invariant gridRow <= rows
      invariant count == ColSegNnz(mat, n, m, globalCol, rowBase, gridRow)
    {
      var globalRow := rowBase + gridRow;
      if globalRow >= n {
        break;
      }
      CellInBuffer(n, m, globalRow, globalCol);
      if mat[globalRow * m + globalCol] != 0.0 {
        count := count + 1;
      }
      gridRow := gridRow + 1;
    }
  }

  /** The traversal inside one tile shared by the COO and CSR scans: rows
      outer, columns inner, both cut off by `break` at the matrix edge.
      Returns the nonzero count and the number of in-bounds rows. */
  method RowMajorTile(mat: seq<real>, n: nat, m: nat, rowBase: nat, gridHeight: nat,
                      colBase: nat, gridWidth: nat)
    returns (local: nat, rowsSeen: nat)
    requires Shaped(mat, n, m)
    ensures rowsSeen == InBounds(n, rowBase, gridHeight)
    ensures local == BlockByRows(mat, n, m, rowBase, InBounds(n, rowBase, gridHeight),
                                 colBase, InBounds(m, colBase, gridWidth))
  {
    ghost var rows, cols := InBounds(n, rowBase, gridHeight), InBounds(m, colBase, gridWidth);
    local, rowsSeen := 0, 0;
    var gridRow := 0;
    while gridRow < gridHeight
      invariant gridRow <= rows && rowsSeen == gridRow
      invariant local == BlockByRows(mat, n, m, rowBase, gridRow, colBase, cols)
    {
      var globalRow := rowBase + gridRow;
      if globalRow >= n {
        break;
      }
      rowsSeen := rowsSeen + 1;
      var count := RowSegment(mat, n, m, globalRow, colBase, gridWidth);
      local := local + count;
      gridRow := gridRow + 1;
    }
  }

  /** The CSC traversal inside one tile: columns outer, rows inner.
      Returns the nonzero count and the number of in-bounds columns. */
  method ColMajorTile(mat: seq<real>, n: nat, m: nat, rowBase: nat, gridHeight: nat,
                      colBase: nat, gridWidth: nat)
    returns (local: nat, colsSeen: nat)
    requires Shaped(mat, n, m)
    ensures colsSeen == InBounds(m, colBase, gridWidth)
    ensures local == BlockByCols(mat, n, m, rowBase, InBounds(n, rowBase, gridHeight),
                                 colBase, InBounds(m, colBase, gridWidth))
  {
    ghost var rows, cols := InBounds(n, rowBase, gridHeight), InBounds(m, colBase, gridWidth);
    local, colsSeen := 0, 0;
    var gridCol := 0;
    while gridCol < gridWidth
      invariant gridCol <= cols && colsSeen == gridCol
      invariant local == BlockByCols(mat, n, m, rowBase, rows, colBase, gridCol)
    {
      var globalCol := colBase + gridCol;
      if globalCol >= m {
        break;
      }
      colsSeen := colsSeen + 1;
      var count := ColSegment(mat, n, m, globalCol, rowBase, gridHeight);
      local := local + count;
      gridCol := gridCol + 1;
    }
  }

  /** The ELLPACK traversal inside one tile: the running maximum `max` is
      raised to the nonzero count of every in-bounds row segment. */
  method EllpackTile(mat: seq<real>, n: nat, m: nat, rowBase: nat, gridHeight: nat,
                     colBase: nat, gridWidth: nat, max0: nat)
    returns (max: nat)
    requires Shaped(mat, n, m)
    ensures max >= max0
    ensures forall g | rowBase <= g < rowBase + InBounds(n, rowBase, gridHeight) ::
      RowSegNnz(mat, n, m, g, colBase, InBounds(m, colBase, gridWidth)) <= max
    ensures max == max0 || exists g | rowBase <= g < rowBase + InBounds(n, rowBase, gridHeight) ::
      RowSegNnz(mat, n, m, g, colBase, InBounds(m, colBase, gridWidth)) == max
  {
    ghost var rows, cols := InBounds(n, rowBase, gridHeight), InBounds(m, colBase, gridWidth);
    max := max0;
    ghost var wr := 0;
    var gridRow := 0;
    while gridRow < gridHeight
      invariant gridRow <= rows && max >= max0
      invariant forall g | rowBase <= g < rowBase + gridRow :: RowSegNnz(mat, n, m, g, colBase, cols) <= max
      invariant max == max0 || (rowBase <= wr < rowBase + gridRow && RowSegNnz(mat, n, m, wr, colBase, cols) == max)
    {
      var globalRow := rowBase + gridRow;
      if globalRow >= n {
        break;
      }
      var local := RowSegment(mat, n, m, globalRow, colBase, gridWidth);
      if local > max {
        max := local;
        wr := globalRow;
      }
      gridRow := gridRow + 1;
    }
  }

  /** The geometry of tile (i, j) as the scans compute it, then the row-major
      traversal of that tile. */
  method ScanTileByRows(mat: seq<real>, n: nat, m: nat, Px: nat, Py: nat, i: nat, j: nat)
    returns (local: nat, rowsSeen: nat)
    requires Shaped(mat, n, m) && Px >= 1 && Py >= 1
    ensures local == TileNnz(mat, n, m, Px, Py, i, j)
    ensures rowsSeen == TileRows(n, Py, i)
  {
    var gridHeight, gridWidth := CeilDiv(n, Py), CeilDiv(m, Px);
    local, rowsSeen := RowMajorTile(mat, n, m, gridHeight * i, gridHeight, gridWidth * j, gridWidth);
  }

  /** retrieve_grid_coo_grid_params: the COO value length is the largest tile
      nonzero count. */
  method CooGridParams(mat: seq<real>, n: nat, m: nat, Px: nat, Py: nat) returns (aLen: nat)
    requires Shaped(mat, n, m) && Px >= 1 && Py >= 1
    ensures IsTileMaximum(mat, n, m, Px, Py, aLen)
  {
    var max := 0;
    ghost var wi, wj := 0, 0;
    var i := 0;
    while i < Py
      invariant 0 <= i <= Py && wi < Py && wj < Px
      invariant forall i', j' | 0 <= i' < i && 0 <= j' < Px :: TileNnz(mat, n, m, Px, Py, i', j') <= max
      invariant max == 0 || TileNnz(mat, n, m, Px, Py, wi, wj) == max
    {
      var j := 0;
      ghost var bandMax := max;
      while j < Px
        invariant 0 <= j <= Px && wi < Py && wj < Px
        invariant forall i', j' | 0 <= i' < i && 0 <= j' < Px :: TileNnz(mat, n, m, Px, Py, i', j') <= bandMax
        invariant bandMax <= max
        invariant forall j' | 0 <= j' < j :: TileNnz(mat, n, m, Px, Py, i, j') <= max
        invariant max == 0 || TileNnz(mat, n, m, Px, Py, wi, wj) == max
      {
        var local, _ := ScanTileByRows(mat, n, m, Px, Py, i, j);
        if local > max {
          max := local;
          wi, wj := i, j;
        }
        j := j + 1;
      }
      i := i + 1;
    }
    aLen := max;
    if max == 0 {
      assert TileNnz(mat, n, m, Px, Py, 0, 0) == 0;
    }
  }

  /** Peeling the last column off a row-by-row block count. */
  lemma {:induction false} ByRowsLastCol(mat: seq<real>, n: nat, m: nat, r0: nat, h: nat, c0: nat, w: nat)
    requires Shaped(mat, n, m) && (h > 0 ==> r0 + h <= n) && w > 0 && c0 + w <= m
    ensures BlockByRows(mat, n, m, r0, h, c0, w)
         == BlockByRows(mat, n, m, r0, h, c0, w - 1) + ColSegNnz(mat, n, m, c0 + w - 1, r0, h)
    decreases h
  {
    if h > 0 {
      ByRowsLastCol(mat, n, m, r0, h - 1, c0, w);
    }
  }

  /** Counting a block row by row or column by column gives the same number,
      so the CSC scan measures the same tiles as the others. */
  lemma {:induction false} ByRowsByCols(mat: seq<real>, n: nat, m: nat, r0: nat, h: nat, c0: nat, w: nat)
    requires Shaped(mat, n, m) && (h > 0 ==> r0 + h <= n) && (w > 0 ==> c0 + w <= m)
    ensures BlockByRows(mat, n, m, r0, h, c0, w) == BlockByCols(mat, n, m, r0, h, c0, w)
    decreases w
  {
    if w == 0 {
      ZeroWidthBlock(mat, n, m, r0, h, c0);
    } else {
      ByRowsLastCol(mat, n, m, r0, h, c0, w);
      ByRowsByCols(mat, n, m, r0, h, c0, w - 1);
    }
  }

  lemma {:induction false} ZeroWidthBlock(mat: seq<real>, n: nat, m: nat, r0: nat, h: nat, c0: nat)
    requires Shaped(mat, n, m) && (h > 0 ==> r0 + h <= n)
    ensures BlockByRows(mat, n, m, r0, h, c0, 0) == 0
    decreases h
  {
    if h > 0 {
      ZeroWidthBlock(mat, n, m, r0, h - 1, c0);
    }
  }

  /** The CSC tile count: tile geometry, then the column-major traversal. */
  method ScanTileByCols(mat: seq<real>, n: nat, m: nat, Px: nat, Py: nat, i: nat, j: nat)
    returns (local: nat, colsSeen: nat)
    requires Shaped(mat, n, m) && Px >= 1 && Py >= 1
    ensures local == TileNnz(mat, n, m, Px, Py, i, j)
    ensures colsSeen == TileCols(m, Px, j)
  {
    var gridHeight, gridWidth := CeilDiv(n, Py), CeilDiv(m, Px);
    local, colsSeen := ColMajorTile(mat, n, m, gridHeight * i, gridHeight, gridWidth * j, gridWidth);
    ByRowsByCols(mat, n, m, gridHeight * i, InBounds(n, gridHeight * i, gridHeight),
                 gridWidth * j, InBounds(m, gridWidth * j, gridWidth));
  }

  /** The ELLPACK step for tile (i, j): raise `max0` to every in-bounds row
      count of the tile. */
  method ScanTileEllpack(mat: seq<real>, n: nat, m: nat, Px: nat, Py: nat, i: nat, j: nat, max0: nat)
    returns (max: nat)
    requires Shaped(mat, n, m) && Px >= 1 && Py >= 1
    ensures max >= max0
    ensures forall r | 0 <= r < TileRows(n, Py, i) :: TileRowNnz(mat, n, m, Px, Py, i, j, r) <= max
    ensures max == max0 || exists r | 0 <= r < TileRows(n, Py, i) :: TileRowNnz(mat, n, m, Px, Py, i, j, r) == max
  {
    var gridHeight, gridWidth := CeilDiv(n, Py), CeilDiv(m, Px);
    max := EllpackTile(mat, n, m, gridHeight * i, gridHeight, gridWidth * j, gridWidth, max0);
    ghost var rowBase := gridHeight * i;
    assert forall r | 0 <= r < TileRows(n, Py, i) ::
      (TileRowNnz(mat, n, m, Px, Py, i, j, r)
         == RowSegNnz(mat, n, m, rowBase + r, gridWidth * j, TileCols(m, Px, j)));
    if max != max0 {
      ghost var g :| rowBase <= g < rowBase + TileRows(n, Py, i)
        && RowSegNnz(mat, n, m, g, gridWidth * j, TileCols(m, Px, j)) == max;
      assert TileRowNnz(mat, n, m, Px, Py, i, j, g - rowBase) == max;
    }
  }

  /** retrieve_to_grid_csr_grid_params: value and column-index lengths are the
      largest tile nonzero count, the row-pointer length the largest number
      of in-bounds tile rows plus one. */
  method CsrGridParams(mat: seq<real>, n: nat, m: nat, Px: nat, Py: nat)
    returns (aLen: nat, colIdxLen: nat, rowPtrLen: nat)
    requires Shaped(mat, n, m) && Px >= 1 && Py >= 1
    ensures IsTileMaximum(mat, n, m, Px, Py, aLen)
    ensures IsTileMaximum(mat, n, m, Px, Py, colIdxLen)
    ensures IsRowPtrMaximum(n, Py, rowPtrLen)
  {
    var maxA, maxIdx, maxPtr := 0, 0, 0;
    ghost var wi, wj, pi := 0, 0, 0;
    var i := 0;
    while i < Py
      invariant 0 <= i <= Py && wi < Py && wj < Px && pi < Py
      invariant maxIdx == maxA
      invariant forall i', j' | 0 <= i' < i && 0 <= j' < Px :: TileNnz(mat, n, m, Px, Py, i', j') <= maxA
      invariant maxA == 0 || TileNnz(mat, n, m, Px, Py, wi, wj) == maxA
      invariant forall i' | 0 <= i' < i :: TileRows(n, Py, i') + 1 <= maxPtr
      invariant i > 0 ==> maxPtr > 0
      invariant maxPtr == 0 || TileRows(n, Py, pi) + 1 == maxPtr
    {
      var j := 0;
      ghost var bandMax, bandPtr := maxA, maxPtr;
      while j < Px
        invariant 0 <= j <= Px && wi < Py && wj < Px && pi < Py
        invariant maxIdx == maxA
        invariant forall i', j' | 0 <= i' < i && 0 <= j' < Px :: TileNnz(mat, n, m, Px, Py, i', j') <= bandMax
        invariant bandMax <= maxA
        invariant forall j' | 0 <= j' < j :: TileNnz(mat, n, m, Px, Py, i, j') <= maxA
        invariant maxA == 0 || TileNnz(mat, n, m, Px, Py, wi, wj) == maxA
        invariant forall i' | 0 <= i' < i :: TileRows(n, Py, i') + 1 <= bandPtr
        invariant bandPtr <= maxPtr
        invariant j > 0 ==> TileRows(n, Py, i) + 1 <= maxPtr
        invariant (i > 0 || j > 0) ==> maxPtr > 0
        invariant maxPtr == 0 || TileRows(n, Py, pi) + 1 == maxPtr
      {
        var localA, rowsSeen := ScanTileByRows(mat, n, m, Px, Py, i, j);
        var localIdx, localPtr := localA, rowsSeen + 1;
        if localA > maxA {
          maxA := localA;
          wi, wj := i, j;
        }
        if localPtr > maxPtr {
          maxPtr := localPtr;
          pi := i;
        }
        if localIdx > maxIdx {
          maxIdx := localIdx;
        }
        j := j + 1;
      }
      i := i + 1;
    }
    aLen, colIdxLen, rowPtrLen := maxA, maxIdx, maxPtr;
    if maxA == 0 {
      assert TileNnz(mat, n, m, Px, Py, 0, 0) == 0;
    }
  }

  /** retrieve_grid_csc_grid_params: value and row-index lengths are the
      largest tile nonzero count, the column-pointer length the largest
      number of in-bounds tile columns plus one. */
  method CscGridParams(mat: seq<real>, n: nat, m: nat, Px: nat, Py: nat)
    returns (aLen: nat, rowIdxLen: nat, colPtrLen: nat)
    requires Shaped(mat, n, m) && Px >= 1 && Py >= 1
    ensures IsTileMaximum(mat, n, m, Px, Py, aLen)
    ensures IsTileMaximum(mat, n, m, Px, Py, rowIdxLen)
    ensures IsColPtrMaximum(m, Px, colPtrLen)
  {
    var maxA, maxIdx, maxPtr := 0, 0, 0;
    ghost var wi, wj, pj := 0, 0, 0;
    var i := 0;
    while i < Py
      invariant 0 <= i <= Py && wi < Py && wj < Px && pj < Px
      invariant maxIdx == maxA
      invariant forall i', j' | 0 <= i' < i && 0 <= j' < Px :: TileNnz(mat, n, m, Px, Py, i', j') <= maxA
      invariant maxA == 0 || TileNnz(mat, n, m, Px, Py, wi, wj) == maxA
      invariant i > 0 ==> forall j' | 0 <= j' < Px :: TileCols(m, Px, j') + 1 <= maxPtr
      invariant i > 0 ==> maxPtr > 0
      invariant maxPtr == 0 || TileCols(m, Px, pj) + 1 == maxPtr
    {
      var j := 0;
      ghost var bandMax, bandPtr := maxA, maxPtr;
      while j < Px
        invariant 0 <= j <= Px && wi < Py && wj < Px && pj < Px
        invariant maxIdx == maxA
        invariant forall i', j' | 0 <= i' < i && 0 <= j' < Px :: TileNnz(mat, n, m, Px, Py, i', j') <= bandMax
        invariant bandMax <= maxA
        invariant forall j' | 0 <= j' < j :: TileNnz(mat, n, m, Px, Py, i, j') <= maxA
        invariant maxA == 0 || TileNnz(mat, n, m, Px, Py, wi, wj) == maxA
        invariant i > 0 ==> forall j' | 0 <= j' < Px :: TileCols(m, Px, j') + 1 <= bandPtr
        invariant bandPtr <= maxPtr
        invariant forall j' | 0 <= j' < j :: TileCols(m, Px, j') + 1 <= maxPtr
        invariant (i > 0 || j > 0) ==> maxPtr > 0
        invariant maxPtr == 0 || TileCols(m, Px, pj) + 1 == maxPtr
      {
        var localA, colsSeen := ScanTileByCols(mat, n, m, Px, Py, i, j);
        var localIdx, localPtr := localA, colsSeen + 1;
        if localA > maxA {
          maxA := localA;
          wi, wj := i, j;
        }
        if localPtr > maxPtr {
          maxPtr := localPtr;
          pj := j;
        }
        if localIdx > maxIdx {
          maxIdx := localIdx;
        }
        j := j + 1;
      }
      i := i + 1;
    }
    aLen, rowIdxLen, colPtrLen := maxA, maxIdx, maxPtr;
    if maxA == 0 {
      assert TileNnz(mat, n, m, Px, Py, 0, 0) == 0;
    }
  }

  /** retrieve_to_grid_ellpack_grid_params: the ELLPACK line length is the
      largest nonzero count of one row inside one tile. */
  method EllpackGridParams(mat: seq<real>, n: nat, m: nat, Px: nat, Py: nat) returns (aLen: nat)
    requires Shaped(mat, n, m) && Px >= 1 && Py >= 1
    ensures IsRowSegMaximum(mat, n, m, Px, Py, aLen)
  {
    var max := 0;
    ghost var wi, wj, wr := 0, 0, 0;
    var i := 0;
    while i < Py
      invariant 0 <= i <= Py
      invariant forall i', j', r | 0 <= i' < i && 0 <= j' < Px && 0 <= r < TileRows(n, Py, i') ::
        TileRowNnz(mat, n, m, Px, Py, i', j', r) <= max
      invariant max == 0 || (wi < Py && wj < Px && wr < TileRows(n, Py, wi)
        && TileRowNnz(mat, n, m, Px, Py, wi, wj, wr) == max)
    {
      var j := 0;
      ghost var bandMax := max;
      while j < Px
        invariant 0 <= j <= Px
        invariant forall i', j', r | 0 <= i' < i && 0 <= j' < Px && 0 <= r < TileRows(n, Py, i') ::
          TileRowNnz(mat, n, m, Px, Py, i', j', r) <= bandMax
        invariant bandMax <= max
        invariant forall j', r | 0 <= j' < j && 0 <= r < TileRows(n, Py, i) ::
          TileRowNnz(mat, n, m, Px, Py, i, j', r) <= max
        invariant max == 0 || (wi < Py && wj < Px && wr < TileRows(n, Py, wi)
          && TileRowNnz(mat, n, m, Px, Py, wi, wj, wr) == max)
      {
        var next := ScanTileEllpack(mat, n, m, Px, Py, i, j, max);
        if next != max {
          ghost var r :| 0 <= r < TileRows(n, Py, i) && TileRowNnz(mat, n, m, Px, Py, i, j, r) == next;
          wi, wj, wr := i, j, r;
        }
        max := next;
        j := j + 1;
      }
      i := i + 1;
    }
    aLen := max;
  }

  /** main: format 0 is CSC, 1 CSR, 2 the custom (COO) format, 3 ELLPACK;
      the matrix is `height x width` and the grid `gridHeight x gridWidth`
      processing elements.  The numbers it prints, or None when the format
      number is not one of these, whatever the grid.  The four scanners
      divide by the grid dimensions, so those formats need a non-empty grid. */
  method MeasureFormat(mat: seq<real>, height: nat, width: nat, gridHeight: nat, gridWidth: nat, kind: int)
    returns (out: Option<seq<nat>>)
    requires Shaped(mat, height, width)
    requires 0 <= kind <= 3 ==> gridHeight >= 1 && gridWidth >= 1
    ensures out.Some? <==> 0 <= kind <= 3
    ensures kind == 0 ==>
      && out.Some? && |out.value| == 3
      && IsTileMaximum(mat, height, width, gridWidth, gridHeight, out.value[0])
      && IsTileMaximum(mat, height, width, gridWidth, gridHeight, out.value[1])
      && IsColPtrMaximum(width, gridWidth, out.value[2])
    ensures kind == 1 ==>
      && out.Some? && |out.value| == 3
      && IsTileMaximum(mat, height, width, gridWidth, gridHeight, out.value[0])
      && IsTileMaximum(mat, height, width, gridWidth, gridHeight, out.value[1])
      && IsRowPtrMaximum(height, gridHeight, out.value[2])
    ensures kind == 2 ==>
      && out.Some? && |out.value| == 1
      && IsTileMaximum(mat, height, width, gridWidth, gridHeight, out.value[0])
    ensures kind == 3 ==>
      && out.Some? && |out.value| == 1
      && IsRowSegMaximum(mat, height, width, gridWidth, gridHeight, out.value[0])
  {
    if kind == 0 {
      var aValLen, aRowIdxLen, aColPtrLen := CscGridParams(mat, height, width, gridWidth, gridHeight);
      out := Some([aValLen, aRowIdxLen, aColPtrLen]);
    } else if kind == 1 {
      var aValLen, aColIdxLen, aRowPtrLen := CsrGridParams(mat, height, width, gridWidth, gridHeight);
      out := Some([aValLen, aColIdxLen, aRowPtrLen]);
    } else if kind == 2 {
      var aLen := CooGridParams(mat, height, width, gridWidth, gridHeight);
      out := Some([aLen]);
    } else if kind == 3 {
      var aLen := EllpackGridParams(mat, height, width, gridWidth, gridHeight);
      out := Some([aLen]);
    } else {
      out := None;
    }
  }

  /** Every cell row belongs to exactly one tile row: row `r` lies in tile
      row `i` if and only if `i` is `r` divided by the tile height. */
  lemma {:induction false} RowInTile(n: nat, Py: nat, r: nat, i: nat)
    requires Py >= 1 && r < n
    ensures r / CeilDiv(n, Py) < Py
    ensures (0 <= i < Py && CeilDiv(n, Py) * i <= r < CeilDiv(n, Py) * i + TileRows(n, Py, i))
        <==> i == r / CeilDiv(n, Py)
  {
    var gh := CeilDiv(n, Py);
    CeilDivBounds(n, Py);
    CeilDivAtMost(n, Py);
    assert gh >= 1;
    SplitJoin(r, gh, Py);
    var q := r / gh;
    assert q * gh <= r < q * gh + gh;
    assert gh * q == q * gh;
    assert TileRows(n, Py, q) == InBounds(n, gh * q, gh);
    if 0 <= i < Py && gh * i <= r < gh * i + TileRows(n, Py, i) {
      assert r < gh * i + gh;
      DivModUnique(r, gh, i, r - gh * i);
    }
  }

  /** A row segment never counts more nonzeros than it has cells. */
  lemma {:induction false} RowSegAtMost(mat: seq<real>, n: nat, m: nat, r: nat, c0: nat, k: nat)
    requires Shaped(mat, n, m) && r < n && (k > 0 ==> c0 + k <= m)
    ensures RowSegNnz(mat, n, m, r, c0, k) <= k
    decreases k
  {
    if k > 0 {
      RowSegAtMost(mat, n, m, r, c0, k - 1);
    }
  }

  /** A block never counts more nonzeros than it has cells. */
  lemma {:induction false} BlockAtMost(mat: seq<real>, n: nat, m: nat, r0: nat, h: nat, c0: nat, w: nat)
    requires Shaped(mat, n, m) && (h > 0 ==> r0 + h <= n) && (w > 0 ==> c0 + w <= m)
    ensures BlockByRows(mat, n, m, r0, h, c0, w) <= h * w
    decreases h
  {
    if h > 0 {
      BlockAtMost(mat, n, m, r0, h - 1, c0, w);
      RowSegAtMost(mat, n, m, r0 + h - 1, c0, w);
      assert (h - 1) * w + w == h * w;
    }
  }

  /** One row of a block counts no more than the whole block. */
  lemma {:induction false} RowSegInBlock(mat: seq<real>, n: nat, m: nat, r0: nat, h: nat, c0: nat, w: nat, r: nat)
    requires Shaped(mat, n, m) && r < h && r0 + h <= n && (w > 0 ==> c0 + w <= m)
    ensures RowSegNnz(mat, n, m, r0 + r, c0, w) <= BlockByRows(mat, n, m, r0, h, c0, w)
    decreases h
  {
    if r < h - 1 {
      RowSegInBlock(mat, n, m, r0, h - 1, c0, w, r);
    }
  }

  /** The tile extents never exceed the nominal tile size. */
  lemma TileExtents(n: nat, m: nat, Px: nat, Py: nat, i: nat, j: nat)
    requires Px >= 1 && Py >= 1
    ensures TileRows(n, Py, i) <= CeilDiv(n, Py) && TileCols(m, Px, j) <= CeilDiv(m, Px)
  {
  }

  /** The COO length is at most the number of cells of a nominal tile. */
  lemma CooAtMostTileArea(mat: seq<real>, n: nat, m: nat, Px: nat, Py: nat, v: nat)
    requires Shaped(mat, n, m) && Px >= 1 && Py >= 1
    requires IsTileMaximum(mat, n, m, Px, Py, v)
    ensures v <= CeilDiv(n, Py) * CeilDiv(m, Px)
  {
    var i, j :| 0 <= i < Py && 0 <= j < Px && TileNnz(mat, n, m, Px, Py, i, j) == v;
    TileAtMostArea(mat, n, m, Px, Py, i, j);
  }

  /** Every tile counts at most the cells of a nominal tile. */
  lemma TileAtMostArea(mat: seq<real>, n: nat, m: nat, Px: nat, Py: nat, i: nat, j: nat)
    requires Shaped(mat, n, m) && Px >= 1 && Py >= 1
    ensures TileNnz(mat, n, m, Px, Py, i, j) <= CeilDiv(n, Py) * CeilDiv(m, Px)
  {
    var H, W := CeilDiv(n, Py), CeilDiv(m, Px);
    var h, w := TileRows(n, Py, i), TileCols(m, Px, j);
    BlockAtMost(mat, n, m, H * i, h, W * j, w);
    TileExtents(n, m, Px, Py, i, j);
    AreaLe(h, H, w, W);
  }

  lemma AreaLe(h: nat, H: nat, w: nat, W: nat)
    requires h <= H && w <= W
    ensures h * w <= H * W
  {
    MulLe(h, H, w);
    MulLe(w, W, H);
  }

  /** One row of a tile counts no more than the tile, nor than the nominal
      tile width. */
  lemma TileRowWithinTile(mat: seq<real>, n: nat, m: nat, Px: nat, Py: nat, i: nat, j: nat, r: nat)
    requires Shaped(mat, n, m) && Px >= 1 && Py >= 1 && r < TileRows(n, Py, i)
    ensures TileRowNnz(mat, n, m, Px, Py, i, j, r) <= TileNnz(mat, n, m, Px, Py, i, j)
    ensures TileRowNnz(mat, n, m, Px, Py, i, j, r) <= CeilDiv(m, Px)
  {
    var rowBase, colBase := CeilDiv(n, Py) * i, CeilDiv(m, Px) * j;
    var h, w := TileRows(n, Py, i), TileCols(m, Px, j);
    RowSegInBlock(mat, n, m, rowBase, h, colBase, w, r);
    RowSegAtMost(mat, n, m, rowBase + r, colBase, w);
  }

  /** The ELLPACK line never exceeds the COO length of the same grid, nor the
      nominal tile width. */
  lemma EllpackWithinCoo(mat: seq<real>, n: nat, m: nat, Px: nat, Py: nat, e: nat, c: nat)
    requires Shaped(mat, n, m) && Px >= 1 && Py >= 1
    requires IsRowSegMaximum(mat, n, m, Px, Py, e) && IsTileMaximum(mat, n, m, Px, Py, c)
    ensures e <= c && e <= CeilDiv(m, Px)
  {
    if e > 0 {
      var i, j, r :| 0 <= i < Py && 0 <= j < Px && 0 <= r < TileRows(n, Py, i)
        && TileRowNnz(mat, n, m, Px, Py, i, j, r) == e;
      TileRowWithinTile(mat, n, m, Px, Py, i, j, r);
    }
  }

  /** The CSR row-pointer length is always the nominal tile height plus one:
      tile row 0 is never cut short. */
  lemma RowPtrIsTileHeight(n: nat, Py: nat, v: nat)
    requires Py >= 1
    ensures IsRowPtrMaximum(n, Py, v) <==> v == CeilDiv(n, Py) + 1
  {
    CeilDivAtMost(n, Py);
    assert TileRows(n, Py, 0) == CeilDiv(n, Py);
  }

  /** The CSC column-pointer length is always the nominal tile width plus one. */
  lemma ColPtrIsTileWidth(m: nat, Px: nat, v: nat)
    requires Px >= 1
    ensures IsColPtrMaximum(m, Px, v) <==> v == CeilDiv(m, Px) + 1
  {
    CeilDivAtMost(m, Px);
    assert TileCols(m, Px, 0) == CeilDiv(m, Px);
  }
}
