/** The 48-bit cycle counters read back from the device (run_memcpy.py).

    Each PE stores its start and end counters as three 32-bit words, handed
    to the host as float32 values; the host takes their bit patterns (given
    here directly as 32-bit naturals), cuts them into 16-bit words and packs
    those into 48-bit timestamps. */
module Timestamps {
  import opened Arith
  import opened Bits
  import opened Wrappers
  import opened Layout

  const WORD: nat := 0x1_0000
  const U48: nat := 0x1_0000_0000_0000

  type U16 = x: nat | x < 0x1_0000
  type U32 = x: nat | x < 0x1_0000_0000

  /** make_u48: three 16-bit words, least significant first, packed with
      `w0 + (w1 << 16) + (w2 << 32)`: the shifts place the words 2^16 apart,
      and the result fits in 48 bits. */
  function MakeU48(words: seq<U16>): (t: nat)
    requires |words| >= 3
    ensures t == words[0] + words[1] * WORD + words[2] * (WORD * WORD)
    ensures t < U48
  {
    Pow2Values();
    words[0] + Shl(words[1], 16) + Shl(words[2], 32)
  }

  /** The three 16-bit fields of a packed value are the words again. */
  lemma MakeU48Fields(words: seq<U16>)
    requires |words| >= 3
    ensures MakeU48(words) % WORD == words[0]
    ensures (MakeU48(words) / WORD) % WORD == words[1]
    ensures MakeU48(words) / WORD / WORD == words[2]
  {
    var t := MakeU48(words);
    DivModUnique(t, WORD, words[1] + words[2] * WORD, words[0]);
    DivModUnique(words[1] + words[2] * WORD, WORD, words[2], words[1]);
  }

  /** The three 16-bit fields of a 48-bit value, least significant first. */
  function Fields(t: nat): (words: seq<U16>)
    requires t < U48
    ensures |words| == 3 && MakeU48(words) == t
  {
    var words: seq<U16> := [t % WORD, (t / WORD) % WORD, t / WORD / WORD];
    assert t == words[0] + words[1] * WORD + words[2] * (WORD * WORD) by {
      assert t == (t / WORD) * WORD + t % WORD;
      assert t / WORD == (t / WORD / WORD) * WORD + (t / WORD) % WORD;
    }
    words
  }

  /** Packing the fields of a 48-bit value and splitting a packed value give
      back what was started from. */
  lemma FieldsRoundTrip(words: seq<U16>, t: nat)
    requires |words| == 3 && t < U48
    ensures Fields(MakeU48(words)) == words
    ensures MakeU48(Fields(t)) == t
  {
    MakeU48Fields(words);
  }

  /** sub_ts: the second 48-bit stamp of a six-word buffer minus the first. */
  function SubTs(words: seq<U16>): (d: int)
    requires |words| >= 6
    ensures -(U48 as int) < d < U48
    ensures d >= 0 <==> MakeU48(words[..3]) <= MakeU48(words[3..])
  {
    MakeU48(words[3..]) - MakeU48(words[0..3])
  }

  /** `t & 0x0000ffff`: the low 16 bits. */
  function Low(t: nat): (w: U16)
    ensures w == t % WORD
  {
    Pow2Values();
    AndLowMask(t, 16);
    And(t, 0xffff)
  }

  /** `(t >> 16) & 0x0000ffff`: the next 16 bits. */
  function High(t: nat): (w: U16)
    ensures w == (t / WORD) % WORD
  {
    Pow2Values();
    Low(Shr(t, 16))
  }

  /** A 32-bit word is its low half plus its high half shifted up. */
  lemma Halves(t: U32)
    ensures High(t) == t / WORD
    ensures t == Low(t) + High(t) * WORD
  {
    assert t == (t / WORD) * WORD + t % WORD;
    DivModUnique(t / WORD, WORD, 0, t / WORD);
  }

  /** The three 32-bit words one PE reports. */
  datatype Triple = Triple(t0: U32, t1: U32, t2: U32)

  /** The timestamps are stored one PE after another, three words each. */
  function TripleAt(data: seq<U32>, p: nat): Triple
    requires 3 * p + 3 <= |data|
  {
    Triple(data[3 * p], data[3 * p + 1], data[3 * p + 2])
  }

  /** The six-word buffer the cycle loops fill: low and high half of each word. */
  function SplitWords(s: Triple): (words: seq<U16>)
    ensures |words| == 6
    ensures MakeU48(words[..3]) == StartStamp(s) && MakeU48(words[3..]) == EndStamp(s)
  {
    [Low(s.t0), High(s.t0), Low(s.t1), High(s.t1), Low(s.t2), High(s.t2)]
  }

  /** `time_start`: the first 48 bits, `t0` and the low half of `t1`. */
  function StartStamp(s: Triple): (t: nat)
    ensures t < U48
    ensures t == s.t0 + (s.t1 % WORD) * (WORD * WORD)
  {
    Halves(s.t0);
    MakeU48([Low(s.t0), High(s.t0), Low(s.t1)])
  }

  /** `time_end`: the last 48 bits, the high half of `t1` and `t2`. */
  function EndStamp(s: Triple): (t: nat)
    ensures t < U48
    ensures t == s.t1 / WORD + s.t2 * WORD
  {
    Halves(s.t1);
    Halves(s.t2);
    MakeU48([High(s.t1), Low(s.t2), High(s.t2)])
  }

  /** The two stamps together are the 96 bits of the three words: no bit is
      lost or counted twice by the split. */
  lemma NoBitsLost(s: Triple)
    ensures StartStamp(s) + EndStamp(s) * U48
            == s.t0 + s.t1 * (WORD * WORD) + s.t2 * (U48 * WORD)
  {
    assert s.t1 == s.t1 % WORD + (s.t1 / WORD) * WORD;
  }

  /** The cycle count of one PE in the gemm and CSR launchers:
      `sub_ts` of the six-word buffer. */
  function Cycles(s: Triple): (c: int)
    ensures c == EndStamp(s) - StartStamp(s)
  {
    var words := SplitWords(s);
    assert words[0..3] == words[..3];
    SubTs(words)
  }

  // ---------------------------------------------------------------------------
  // The min / max / average loop of the gemm and CSR launchers

  /** The loop visits PEs column by column: the `o`-th visit is PE
      (w, h) = `(o / height, o % height)`, whose stamps are entry (h, w) of
      the (height, width, 3) reshape, i.e. triple `h * width + w` of the
      buffer. */
  function VisitPE(height: nat, width: nat, o: nat): (p: nat)
    requires o < height * width
    ensures p < height * width
  {
    SplitJoin(o, height, width);
    JoinSplit(o % height, o / height, width, height);
    (o % height) * width + o / height
  }

  /** `data.reshape((height, width, 3))`: entry `[h][w]` holds PE (w, h)'s
      three words. */
  function Reshape(data: seq<U32>, height: nat, width: nat): (grid: seq<seq<Triple>>)
    requires |data| == 3 * (height * width)
    ensures IsMatrix(grid, height, width)
  {
    seq(height, h requires 0 <= h < height =>
      seq(width, w requires 0 <= w < width => Reshaped(data, height, width, h, w)))
  }

  /** The counts of column `w`, top to bottom: one run of the inner loop. */
  function Column(grid: seq<seq<Triple>>, height: nat, width: nat, w: nat): (col: seq<int>)
    requires IsMatrix(grid, height, width) && w < width
    ensures |col| == height
  {
    seq(height, h requires 0 <= h < height => Cycles(grid[h][w]))
  }

  /** The counts of columns `0 .. k - 1` in visiting order. */
  function Columns(grid: seq<seq<Triple>>, height: nat, width: nat, k: nat): (cs: seq<int>)
    requires IsMatrix(grid, height, width) && k <= width
    ensures |cs| == k * height
  {
    if k == 0 then []
    else
      MulSucc(k - 1, height);
      Columns(grid, height, width, k - 1) + Column(grid, height, width, k - 1)
  }

  /** The cycle counts in visiting order, column after column. */
  function VisitCycles(grid: seq<seq<Triple>>, height: nat, width: nat): (cs: seq<int>)
    requires IsMatrix(grid, height, width)
    ensures |cs| == height * width
  {
    Columns(grid, height, width, width)
  }

  /** Sum of the first `n` counts. */
  function Sum(cs: seq<int>, n: nat): int
    requires n <= |cs|
  {
    if n == 0 then 0 else Sum(cs, n - 1) + cs[n - 1]
  }

  /** `min` is the least of the first `n` counts (None while `min_cycles` is
      still infinite), first reached at visit `at`. */
  predicate MinSoFar(cs: seq<int>, n: nat, min: Option<int>, at: nat)
    requires n <= |cs|
  {
    && (min.None? <==> n == 0)
    && (min.Some? ==>
          && at < n && cs[at] == min.value
          && (forall o | 0 <= o < n :: min.value <= cs[o])
          && (forall o | 0 <= o < at :: min.value < cs[o]))
  }

  /** `max` is the greatest of 0 and the first `n` counts; `at` is unset while
      no count has exceeded 0, otherwise the first visit reaching `max`. */
  predicate MaxSoFar(cs: seq<int>, n: nat, max: int, at: Option<nat>)
    requires n <= |cs|
  {
    && max >= 0
    && (forall o | 0 <= o < n :: cs[o] <= max)
    && (at.None? ==> max == 0)
    && (at.Some? ==>
          && at.value < n && cs[at.value] == max && max > 0
          && (forall o | 0 <= o < at.value :: cs[o] < max))
  }

  lemma MinStep(cs: seq<int>, n: nat, min: Option<int>, at: nat)
    requires n < |cs| && MinSoFar(cs, n, min, at)
    ensures min.None? || cs[n] < min.value ==> MinSoFar(cs, n + 1, Some(cs[n]), n)
    ensures !(min.None? || cs[n] < min.value) ==> MinSoFar(cs, n + 1, min, at)
  {
  }

  lemma MaxStep(cs: seq<int>, n: nat, max: int, at: Option<nat>)
    requires n < |cs| && MaxSoFar(cs, n, max, at)
    ensures cs[n] > max ==> MaxSoFar(cs, n + 1, cs[n], Some(n))
    ensures cs[n] <= max ==> MaxSoFar(cs, n + 1, max, at)
  {
  }

  /** Position of PE (w, h) in visiting order. */
  function Order(height: nat, p: (nat, nat)): nat {
    p.0 * height + p.1
  }

  function OrderOf(height: nat, p: Option<(nat, nat)>): Option<nat> {
    if p.None? then None else Some(Order(height, p.value))
  }

  predicate InGrid(height: nat, width: nat, p: (nat, nat)) {
    p.0 < width && p.1 < height
  }

  /** The accumulators of the loop after `n` visits. */
  predicate Accumulated(cs: seq<int>, height: nat, width: nat, n: nat,
                        min: Option<int>, minAt: (nat, nat), max: int, maxAt: Option<(nat, nat)>, sum: int)
    requires n <= |cs|
  {
    && sum == Sum(cs, n)
    && MinSoFar(cs, n, min, Order(height, minAt)) && (min.Some? ==> InGrid(height, width, minAt))
    && MaxSoFar(cs, n, max, OrderOf(height, maxAt)) && (maxAt.Some? ==> InGrid(height, width, maxAt.value))
  }

  /** What the loop prints: minimum and maximum with their PE (w, h), and the
      floor mean.  `maxAt` is None when no count exceeds 0; the script would
      then stop with a NameError when printing `max_w`. */
  datatype CycleSummary = CycleSummary(minCycles: int, minAt: (nat, nat),
                                       maxCycles: int, maxAt: Option<(nat, nat)>, avgCycles: int)

  /** `s` summarises the counts `cs` of all PEs, in visiting order. */
  predicate IsCycleSummary(cs: seq<int>, height: nat, width: nat, s: CycleSummary)
    requires |cs| >= 1
  {
    && Accumulated(cs, height, width, |cs|, Some(s.minCycles), s.minAt, s.maxCycles, s.maxAt, Sum(cs, |cs|))
    && s.avgCycles == Sum(cs, |cs|) / |cs|
  }

  /** The `(w, h)` visit comes `w * height + h`-th and reads triple `h * width + w`. */
  lemma VisitOrder(height: nat, width: nat, w: nat, h: nat)
    requires w < width && h < height
    ensures w * height + h < height * width
    ensures VisitPE(height, width, w * height + h) == h * width + w
  {
    JoinSplit(w, h, height, width);
  }

  /** Entry `[h, w]` of the timestamps reshaped to (height, width, 3). */
  function Reshaped(data: seq<U32>, height: nat, width: nat, h: nat, w: nat): (s: Triple)
    requires |data| == 3 * (height * width) && h < height && w < width
    ensures 3 * (h * width + w) + 3 <= |data| && s == TripleAt(data, h * width + w)
  {
    CellInBuffer(height, width, h, w);
    TripleAt(data, h * width + w)
  }

  lemma AppendLeft<T>(a: seq<T>, b: seq<T>, i: nat)
    requires i < |a|
    ensures (a + b)[i] == a[i]
  {
  }

  lemma AppendRight<T>(a: seq<T>, b: seq<T>, i: nat)
    requires i < |b|
    ensures |a| + i < |a + b| && (a + b)[|a| + i] == b[i]
  {
  }

  /** One more column keeps the counts already visited ... */
  lemma ColumnsKeep(grid: seq<seq<Triple>>, height: nat, width: nat, k: nat, i: nat)
    requires IsMatrix(grid, height, width) && k < width && i < |Columns(grid, height, width, k)|
    ensures i < |Columns(grid, height, width, k + 1)|
    ensures Columns(grid, height, width, k + 1)[i] == Columns(grid, height, width, k)[i]
  {
    AppendLeft(Columns(grid, height, width, k), Column(grid, height, width, k), i);
  }

  /** ... and appends the counts of column `k`. */
  lemma ColumnsAppend(grid: seq<seq<Triple>>, height: nat, width: nat, k: nat, h: nat)
    requires IsMatrix(grid, height, width) && k < width && h < height
    ensures k * height + h < |Columns(grid, height, width, k + 1)|
    ensures Columns(grid, height, width, k + 1)[k * height + h] == Column(grid, height, width, k)[h]
  {
    var visited, column := Columns(grid, height, width, k), Column(grid, height, width, k);
    assert |visited| == k * height;
    assert Columns(grid, height, width, k + 1) == visited + column;
    AppendRight(visited, column, h);
  }

  /** Visiting more columns only extends the sequence of counts. */
  lemma {:induction false} ColumnsPrefix(grid: seq<seq<Triple>>, height: nat, width: nat, j: nat, k: nat, i: nat)
    requires IsMatrix(grid, height, width) && j <= k <= width && i < |Columns(grid, height, width, j)|
    ensures i < |Columns(grid, height, width, k)|
    ensures Columns(grid, height, width, k)[i] == Columns(grid, height, width, j)[i]
    decreases k
  {
    if j < k {
      var m := k - 1;
      ColumnsPrefix(grid, height, width, j, m, i);
      ColumnsKeep(grid, height, width, m, i);
    }
  }

  /** The `n`-th visit, `n == w * height + h`, reads the count of entry `[h, w]`. */
  lemma VisitCyclesAt(grid: seq<seq<Triple>>, height: nat, width: nat, w: nat, h: nat, n: nat)
    requires IsMatrix(grid, height, width) && w < width && h < height && n == w * height + h
    ensures n < height * width
    ensures VisitCycles(grid, height, width)[n] == Cycles(grid[h][w])
  {
    ColumnsAppend(grid, height, width, w, h);
    ColumnsPrefix(grid, height, width, w + 1, width, n);
  }

  /** Entry `[h][w]` of the reshape is triple `h * width + w` of the buffer. */
  lemma ReshapeAt(data: seq<U32>, height: nat, width: nat, h: nat, w: nat)
    requires |data| == 3 * (height * width) && h < height && w < width
    ensures 3 * (h * width + w) + 3 <= |data|
    ensures Reshape(data, height, width)[h][w] == TripleAt(data, h * width + w)
  {
    assert Reshape(data, height, width)[h][w] == Reshaped(data, height, width, h, w);
  }

  /** The `o`-th visit is PE (w, h) = `(o / height, o % height)`: it reads
      triple `VisitPE(height, width, o)` of the buffer. */
  lemma VisitCyclesIndex(data: seq<U32>, height: nat, width: nat, o: nat)
    requires |data| == 3 * (height * width) && o < height * width
    ensures 3 * VisitPE(height, width, o) + 3 <= |data|
    ensures VisitCycles(Reshape(data, height, width), height, width)[o] == Cycles(TripleAt(data, VisitPE(height, width, o)))
  {
    SplitJoin(o, height, width);
    var w, h := o / height, o % height;
    assert VisitPE(height, width, o) == h * width + w;
    VisitCyclesAt(Reshape(data, height, width), height, width, w, h, o);
    ReshapeAt(data, height, width, h, w);
  }

  /** One pass of the loop body: the six-word buffer is filled with the halves
      of the PE's three words and `sub_ts` of it is the PE's count. */
  method ReadCycles(buffer: array<U16>, s: Triple) returns (cycles: int)
    requires buffer.Length == 6
    modifies buffer
    ensures buffer[..] == SplitWords(s)
    ensures cycles == Cycles(s)
  {
    buffer[0] := Low(s.t0);
    buffer[1] := High(s.t0);
    buffer[2] := Low(s.t1);
    buffer[3] := High(s.t1);
    buffer[4] := Low(s.t2);
    buffer[5] := High(s.t2);
    assert buffer[..] == SplitWords(s);
    cycles := SubTs(buffer[..]);
    assert buffer[..][0..3] == buffer[..][..3];
  }

  /** Visiting PE (w, h) as the `n`-th, with `n == w * height + h`, extends
      the accumulators from `n` to `n + 1` counts: the sum takes the count,
      the minimum moves to (w, h) on a strictly smaller count (or the first
      one), the maximum on a strictly larger one. */
  lemma AccumulateStep(cs: seq<int>, height: nat, width: nat, w: nat, h: nat, n: nat,
                       min: Option<int>, minAt: (nat, nat), max: int, maxAt: Option<(nat, nat)>, sum: int,
                       min': Option<int>, minAt': (nat, nat), max': int, maxAt': Option<(nat, nat)>, sum': int)
    requires w < width && h < height && n == w * height + h && n < |cs|
    requires Accumulated(cs, height, width, n, min, minAt, max, maxAt, sum)
    requires sum' == sum + cs[n]
    requires if min.None? || cs[n] < min.value then min' == Some(cs[n]) && minAt' == (w, h)
             else min' == min && minAt' == minAt
    requires if cs[n] > max then max' == cs[n] && maxAt' == Some((w, h))
             else max' == max && maxAt' == maxAt
    ensures Accumulated(cs, height, width, n + 1, min', minAt', max', maxAt', sum')
  {
    assert Order(height, (w, h)) == n;
    MinStep(cs, n, min, Order(height, minAt));
    MaxStep(cs, n, max, OrderOf(height, maxAt));
  }

  /** The body of the inner loop for PE (w, h), its `n`-th visit: read the
      PE's count through the six-word buffer and fold it into the minimum,
      maximum and sum. */
  method Tally(grid: seq<seq<Triple>>, height: nat, width: nat, buffer: array<U16>, ghost cs: seq<int>, ghost n: nat,
               w: nat, h: nat, min: Option<int>, minAt: (nat, nat), max: int, maxAt: Option<(nat, nat)>, sum: int)
    returns (min': Option<int>, minAt': (nat, nat), max': int, maxAt': Option<(nat, nat)>, sum': int)
    requires IsMatrix(grid, height, width) && cs == VisitCycles(grid, height, width)
    requires w < width && h < height && n == w * height + h && buffer.Length == 6
    requires n <= |cs| && Accumulated(cs, height, width, n, min, minAt, max, maxAt, sum)
    modifies buffer
    ensures n < |cs| && Accumulated(cs, height, width, n + 1, min', minAt', max', maxAt', sum')
  {
    VisitCyclesAt(grid, height, width, w, h, n);
    var cycles := ReadCycles(buffer, grid[h][w]);
    min', minAt', max', maxAt', sum' := min, minAt, max, maxAt, sum + cycles;
    if min.None? || cycles < min.value {
      min', minAt' := Some(cycles), (w, h);
    }
    if cycles > max {
      max', maxAt' := cycles, Some((w, h));
    }
    AccumulateStep(cs, height, width, w, h, n, min, minAt, max, maxAt, sum, min', minAt', max', maxAt', sum');
  }

  /** The inner loop over the PEs of column `w`, visits `w * height` to
      `(w + 1) * height - 1`. */
  method TallyColumn(grid: seq<seq<Triple>>, height: nat, width: nat, buffer: array<U16>, ghost cs: seq<int>, ghost n: nat,
                     w: nat, min: Option<int>, minAt: (nat, nat), max: int, maxAt: Option<(nat, nat)>, sum: int)
    returns (min': Option<int>, minAt': (nat, nat), max': int, maxAt': Option<(nat, nat)>, sum': int)
    requires IsMatrix(grid, height, width) && cs == VisitCycles(grid, height, width)
    requires w < width && n == w * height && buffer.Length == 6
    requires n <= |cs| && Accumulated(cs, height, width, n, min, minAt, max, maxAt, sum)
    modifies buffer
    ensures n + height <= |cs| && Accumulated(cs, height, width, n + height, min', minAt', max', maxAt', sum')
  {
    min', minAt', max', maxAt', sum' := min, minAt, max, maxAt, sum;
    var h: nat := 0;
    ghost var k := n;
    while h < height
      invariant h <= height && k == n + h && k <= |cs|
      invariant Accumulated(cs, height, width, k, min', minAt', max', maxAt', sum')
    {
      min', minAt', max', maxAt', sum' := Tally(grid, height, width, buffer, cs, k, w, h, min', minAt', max', maxAt', sum');
      h, k := h + 1, k + 1;
    }
  }

  /** The timestamp loop of the gemm and CSR launchers: for each PE, column
      by column, split its three words into the six-word buffer, take
      `sub_ts`, and update the minimum, maximum and sum; then floor-divide the
      sum by the number of PEs, a ZeroDivisionError on an empty grid. */
  method CycleLoop(data: seq<U32>, height: nat, width: nat) returns (r: Result<CycleSummary, ScriptError>)
    requires |data| == 3 * (height * width)
    ensures r.Failure? <==> height * width == 0
    ensures r.Success? ==> height * width >= 1 && IsCycleSummary(VisitCycles(Reshape(data, height, width), height, width), height, width, r.value)
    ensures r.Success? ==> r.value.minCycles <= r.value.avgCycles <= r.value.maxCycles
  {
    var grid := Reshape(data, height, width);
    ghost var cs := VisitCycles(grid, height, width);
    var buffer := new U16[6](_ => 0);
    var min: Option<int> := None;
    var max := 0;
    var sum := 0;
    var minAt: (nat, nat), maxAt: Option<(nat, nat)> := (0, 0), None;
    ghost var n: nat := 0;
    var w: nat := 0;
    while w < width
      invariant w <= width && n == w * height && n <= |cs|
      invariant Accumulated(cs, height, width, n, min, minAt, max, maxAt, sum)
    {
      min, minAt, max, maxAt, sum := TallyColumn(grid, height, width, buffer, cs, n, w, min, minAt, max, maxAt, sum);
      n := n + height;
      MulSucc(w, height);
      MulLe(w + 1, width, height);
      w := w + 1;
    }
    if height * width == 0 {
      return Failure(ZeroDivisionError);
    }
    assert n == width * height;
    assert n == |cs|;
    var summary := CycleSummary(min.value, minAt, max, maxAt, sum / (height * width));
    MeanBetween(cs, height, width, summary);
    return Success(summary);
  }

  lemma {:induction false} SumBounds(cs: seq<int>, n: nat, lo: int, hi: int)
    requires n <= |cs|
    requires forall o | 0 <= o < n :: lo <= cs[o] <= hi
    ensures n * lo <= Sum(cs, n) <= n * hi
  {
    if n > 0 {
      SumBounds(cs, n - 1, lo, hi);
      MulSucc(n - 1, lo);
      MulSucc(n - 1, hi);
    }
  }

  /** The floor mean lies between the minimum and the maximum. */
  lemma MeanBetween(cs: seq<int>, height: nat, width: nat, s: CycleSummary)
    requires |cs| >= 1 && IsCycleSummary(cs, height, width, s)
    ensures s.minCycles <= s.avgCycles <= s.maxCycles
  {
    var n := |cs|;
    var T := Sum(cs, n);
    SumBounds(cs, n, s.minCycles, s.maxCycles);
    FloorDivBetween(T, n, s.minCycles, s.maxCycles);
  }

  // ---------------------------------------------------------------------------
  // grid_ellpack_dsr: three words per grid row split into two stamps

  /** The first `h` entries of `starts` and `ends` are the stamps of the
      first `h` grid rows. */
  predicate StampsFilled(data: seq<U32>, starts: seq<int>, ends: seq<int>, h: nat)
    requires 3 * h <= |data| && h <= |starts| && h <= |ends|
  {
    forall g | 0 <= g < h :: starts[g] == StartStamp(TripleAt(data, g)) && ends[g] == EndStamp(TripleAt(data, g))
  }

  lemma StampsFilledStep(data: seq<U32>, starts: seq<int>, ends: seq<int>, h: nat)
    requires 3 * h + 3 <= |data| && h < |starts| && h < |ends|
    requires StampsFilled(data, starts, ends, h)
    ensures StampsFilled(data, starts[h := StartStamp(TripleAt(data, h))], ends[h := EndStamp(TripleAt(data, h))], h + 1)
  {
  }

  /** The split loop of the ELLPACK launcher: for each grid row, the `word`
      buffer is filled with the first three 16-bit halves to give
      `time_start[h]` and refilled with the last three to give `time_end[h]`. */
  method SplitStamps(data: seq<U32>, height: nat) returns (timeStart: array<int>, timeEnd: array<int>)
    requires |data| == 3 * height
    ensures fresh(timeStart) && fresh(timeEnd)
    ensures timeStart.Length == height && timeEnd.Length == height
    ensures StampsFilled(data, timeStart[..], timeEnd[..], height)
  {
    timeStart := new int[height](_ => 0);
    timeEnd := new int[height](_ => 0);
    var word := new U16[3](_ => 0);
    var h := 0;
    while h < height
      invariant h <= height
      invariant StampsFilled(data, timeStart[..], timeEnd[..], h)
    {
      var s := TripleAt(data, h);
      StampsFilledStep(data, timeStart[..], timeEnd[..], h);
      word[0] := Low(s.t0);
      word[1] := High(s.t0);
      word[2] := Low(s.t1);
      assert word[..] == [Low(s.t0), High(s.t0), Low(s.t1)];
      timeStart[h] := MakeU48(word[..]);
      word[0] := High(s.t1);
      word[1] := Low(s.t2);
      word[2] := High(s.t2);
      assert word[..] == [High(s.t1), Low(s.t2), High(s.t2)];
      timeEnd[h] := MakeU48(word[..]);
      h := h + 1;
    }
  }

  /** `np.subtract` / array `-` on equal-length vectors. */
  function Difference(a: seq<int>, b: seq<int>): (d: seq<int>)
    requires |a| == |b|
    ensures |d| == |a| && forall i | 0 <= i < |a| :: d[i] + b[i] == a[i]
  {
    if a == [] then [] else [a[0] - b[0]] + Difference(a[1..], b[1..])
  }

  /** The ELLPACK cycle counts, `time_end - time_start`, are the gemm
      launcher's counts for the same three words. */
  lemma EllpackCyclesAgree(data: seq<U32>, height: nat, timeStart: seq<int>, timeEnd: seq<int>)
    requires |data| == 3 * height && |timeStart| == height && |timeEnd| == height
    requires StampsFilled(data, timeStart, timeEnd, height)
    ensures forall h | 0 <= h < height :: Difference(timeEnd, timeStart)[h] == Cycles(TripleAt(data, h))
  {
  }

  // ---------------------------------------------------------------------------
  // grid_custom: three words with the stamp in their upper halves

  /** `b >> 16` of a 32-bit word is its high half. */
  lemma ShrWord(b: U32)
    ensures Shr(b, 16) == b / WORD && b / WORD < WORD
  {
    Pow2Values();
  }

  /** `(i1 << 32) | (i2 << 16) | i3` on 16-bit words is make_u48 of
      `[i3, i2, i1]`: the shifted words do not overlap. */
  lemma PackWords(i1: U16, i2: U16, i3: U16)
    ensures Or(Or(Shl(i1, 32), Shl(i2, 16)), i3) == MakeU48([i3, i2, i1])
  {
    Pow2Values();
    assert Shl(i2, 16) == i2 * WORD;
    assert Shl(i1, 32) == i1 * (WORD * WORD);
    OrDisjoint(i1, Shl(i2, 16), 32);
    assert Shl(i1 * WORD + i2, 16) == (i1 * WORD + i2) * WORD;
    OrDisjoint(i1 * WORD + i2, i3, 16);
  }

  /** float_triple_to_uint48_bits on the bit patterns of its three floats:
      `(b1 >> 16) << 32 | (b2 >> 16) << 16 | b3 >> 16`.  It is make_u48 of the
      upper halves with `b1` most significant, so each 16-bit field recovers
      the upper half of the matching input. */
  function TripleToU48(b1: U32, b2: U32, b3: U32): (t: nat)
    ensures t == MakeU48([b3 / WORD, b2 / WORD, b1 / WORD])
    ensures t < U48
    ensures t / WORD / WORD == b1 / WORD && (t / WORD) % WORD == b2 / WORD && t % WORD == b3 / WORD
  {
    var i1, i2, i3 := Shr(b1, 16), Shr(b2, 16), Shr(b3, 16);
    ShrWord(b1);
    ShrWord(b2);
    ShrWord(b3);
    PackWords(b1 / WORD, b2 / WORD, b3 / WORD);
    MakeU48Fields([b3 / WORD, b2 / WORD, b1 / WORD]);
    Or(Or(Shl(i1, 32), Shl(i2, 16)), i3)
  }

  /** convert_array: a ValueError unless the array has three columns, and
      another from np.apply_along_axis when it has no rows; otherwise one
      stamp per row, in row order. */
  function ConvertArray(rows: seq<seq<U32>>, cols: nat): (r: Result<seq<nat>, ScriptError>)
    requires forall i | 0 <= i < |rows| :: |rows[i]| == cols
    ensures r.Failure? <==> cols != 3 || |rows| == 0
    ensures r.Failure? ==> r.error.ValueError?
    ensures r.Success? ==>
              && |r.value| == |rows|
              && forall i | 0 <= i < |rows| :: r.value[i] == TripleToU48(rows[i][0], rows[i][1], rows[i][2])
  {
    if cols != 3 then Failure(ValueError("Input array must have 3 columns"))
    else if rows == [] then Failure(ValueError("Cannot apply_along_axis when any iteration dimensions are 0"))
    else Success(ConvertRows(rows))
  }

  function ConvertRows(rows: seq<seq<U32>>): (r: seq<nat>)
    requires forall i | 0 <= i < |rows| :: |rows[i]| == 3
    ensures |r| == |rows|
    ensures forall i | 0 <= i < |rows| :: r[i] == TripleToU48(rows[i][0], rows[i][1], rows[i][2])
  {
    if rows == [] then [] else [TripleToU48(rows[0][0], rows[0][1], rows[0][2])] + ConvertRows(rows[1..])
  }

  /** `np.reshape(v, (height, 3))`. */
  function Rows3(v: seq<U32>, height: nat): (rows: seq<seq<U32>>)
    requires |v| == 3 * height
    ensures |rows| == height
    ensures forall h | 0 <= h < height :: rows[h] == [v[3 * h], v[3 * h + 1], v[3 * h + 2]]
  {
    if height == 0 then [] else Rows3(v[..3 * (height - 1)], height - 1) + [v[3 * (height - 1)..]]
  }

  function Reverse<T>(s: seq<T>): (r: seq<T>)
    ensures |r| == |s| && forall i | 0 <= i < |s| :: r[i] == s[|s| - 1 - i]
  {
    if s == [] then [] else Reverse(s[1..]) + [s[0]]
  }

  /** `np.fliplr`: every row reversed. */
  function FlipRows(rows: seq<seq<U32>>): (r: seq<seq<U32>>)
    ensures |r| == |rows| && forall i | 0 <= i < |rows| :: r[i] == Reverse(rows[i])
  {
    if rows == [] then [] else [Reverse(rows[0])] + FlipRows(rows[1..])
  }

  /** The stamp of grid row `h` in the custom launcher: the last of its three
      words is the most significant. */
  function RowStamp(v: seq<U32>, h: nat): nat
    requires 3 * h + 3 <= |v|
  {
    MakeU48([v[3 * h] / WORD, v[3 * h + 1] / WORD, v[3 * h + 2] / WORD])
  }

  /** Row `h` of the reshaped, reversed and converted buffer is the row's stamp. */
  lemma ConvertedRow(v: seq<U32>, height: nat, h: nat)
    requires |v| == 3 * height && h < height
    ensures 3 * h + 3 <= |v|
    ensures ConvertRows(FlipRows(Rows3(v, height)))[h] == RowStamp(v, h)
  {
    var row := FlipRows(Rows3(v, height))[h];
    assert row == [v[3 * h + 2], v[3 * h + 1], v[3 * h]];
  }

  /** `convert_array(np.fliplr(np.reshape(v, (height, 3))))`: one stamp per
      grid row.  The launcher has already divided by `height` (`Nt = N //
      height`), so the grid has at least one row. */
  function ConvertedStamps(v: seq<U32>, height: nat): (stamps: seq<nat>)
    requires |v| == 3 * height && height >= 1
    ensures |stamps| == height
    ensures forall h | 0 <= h < height :: 3 * h + 3 <= |v| && stamps[h] == RowStamp(v, h)
  {
    var r := ConvertArray(FlipRows(Rows3(v, height)), 3);
    assert r.value == ConvertRows(FlipRows(Rows3(v, height)));
    forall h | 0 <= h < height
      ensures 3 * h + 3 <= |v| && r.value[h] == RowStamp(v, h)
    {
      ConvertedRow(v, height, h);
    }
    r.value
  }

  /** The post-processing of the custom launcher: reshape both buffers to
      (height, 3), reverse each row, convert, subtract start from finish.
      Grid row `h` gets the difference of its two stamps, each built from the
      upper halves of its words with the last word most significant. */
  function CustomCycles(tscS: seq<U32>, tscF: seq<U32>, height: nat): (cycles: seq<int>)
    requires |tscS| == 3 * height && |tscF| == 3 * height && height >= 1
    ensures |cycles| == height
    ensures forall h | 0 <= h < height :: 3 * h + 3 <= |tscS| && cycles[h] == RowStamp(tscF, h) - RowStamp(tscS, h)
  {
    Difference(ConvertedStamps(tscF, height), ConvertedStamps(tscS, height))
  }
}
