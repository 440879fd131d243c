/** The grid-configuration search of calculate_memory_limits.py (main).

    For one matrix `N x K` at one density, every grid `h x w` with `h | N`,
    `w | K`, `1 <= h < AVAIL_HEIGHT` and `1 <= w < AVAIL_WIDTH` is priced for
    each dense width `M` in `DENSE_WIDTHS`.  The configurations under the budget
    that lie within 5% of that width's most memory-hungry one are collected;
    among them the planner keeps the largest tiles `Nt * Kt`, then those within
    5% of the most memory among those, then the widest `M`, and takes the
    first.  Any stage that indexes an empty list aborts the whole sweep. */
module ConfigSearch {
  import opened Wrappers
  import opened MemoryModel
  import opened DecimalText
  import opened Arith

  /** A priced candidate: (memory, grid height, grid width, Nt * Kt, M). */
  datatype Config = Config(mem: real, h: nat, w: nat, ntkt: nat, M: nat)

  /** One line of the final table: N, K, density, grid height, grid width, M. */
  datatype Plan = Plan(N: nat, K: nat, density: nat, h: nat, w: nat, M: nat)

  /** The IndexError raised by `sorted(...)[-1]` on an empty list: no grid fits
      for some `M`, or the 5% filter kept nothing. */
  datatype SearchError = NoConfigFits(M: nat) | NothingKept

  /** Grid extents are positive. */
  type Pos = x: nat | x >= 1 witness 1

  /** The price of a grid: the configuration of width `M` on an `h x w` grid. */
  type Pricer = (nat, Pos, Pos) -> Config

  const DENSE_WIDTHS: seq<nat> := [32, 64, 128, 256, 512]
  const DENSITIES: seq<nat> := [5, 10, 20, 30]
  const SHAPES: seq<(nat, nat)> :=
    [(768, 768), (3072, 768), (768, 3072), (1024, 1024), (4096, 1024), (1024, 4096)]

  /** `[i for i in range(1, limit) if x % i == 0]`. */
  function Divisors(x: nat, limit: nat): seq<Pos>
    decreases limit
  {
    if limit <= 1 then []
    else Divisors(x, limit - 1) + (if x % (limit - 1) == 0 then [limit - 1] else [])
  }

  lemma {:induction false} DivisorsMembers(x: nat, limit: nat, d: int)
    ensures d in Divisors(x, limit) <==> 1 <= d < limit && x % d == 0
    decreases limit
  {
    if limit > 1 {
      DivisorsMembers(x, limit - 1, d);
    }
  }

  /** The divisors come out in increasing order, so without repetition. */
  lemma {:induction false} DivisorsIncreasing(x: nat, limit: nat)
    ensures forall a, b | 0 <= a < b < |Divisors(x, limit)| :: Divisors(x, limit)[a] < Divisors(x, limit)[b]
    decreases limit
  {
    if limit > 1 {
      DivisorsIncreasing(x, limit - 1);
      var ds := Divisors(x, limit - 1);
      forall a | 0 <= a < |ds| ensures ds[a] < limit - 1 {
        DivisorsMembers(x, limit - 1, ds[a]);
      }
    }
  }

  /** `itertools.product(hs, ws)`: heights outer, widths inner. */
  function Product(hs: seq<Pos>, ws: seq<Pos>): seq<(Pos, Pos)>
    decreases |hs|
  {
    if hs == [] then [] else Row(hs[0], ws) + Product(hs[1..], ws)
  }

  function Row(h: Pos, ws: seq<Pos>): seq<(Pos, Pos)>
    decreases |ws|
  {
    if ws == [] then [] else [(h, ws[0])] + Row(h, ws[1..])
  }

  lemma {:induction false} RowMembers(h: Pos, ws: seq<Pos>, p: (Pos, Pos))
    ensures p in Row(h, ws) <==> p.0 == h && p.1 in ws
    decreases |ws|
  {
    if ws != [] {
      RowMembers(h, ws[1..], p);
      assert ws == [ws[0]] + ws[1..];
    }
  }

  lemma {:induction false} ProductMembers(hs: seq<Pos>, ws: seq<Pos>, p: (Pos, Pos))
    ensures p in Product(hs, ws) <==> p.0 in hs && p.1 in ws
    decreases |hs|
  {
    if hs != [] {
      RowMembers(hs[0], ws, p);
      ProductMembers(hs[1..], ws, p);
      assert hs == [hs[0]] + hs[1..];
    }
  }

  /** The enumerated grids for an `N x K` matrix. */
  function Candidates(N: nat, K: nat): seq<(Pos, Pos)> {
    Product(Divisors(N, AVAIL_HEIGHT), Divisors(K, AVAIL_WIDTH))
  }

  /** The enumerated grids are exactly the admissible ones. */
  lemma CandidatesAdmissible(N: nat, K: nat, h: Pos, w: Pos)
    ensures (h, w) in Candidates(N, K) <==> h < AVAIL_HEIGHT && N % h == 0 && w < AVAIL_WIDTH && K % w == 0
  {
    ProductMembers(Divisors(N, AVAIL_HEIGHT), Divisors(K, AVAIL_WIDTH), (h, w));
    DivisorsMembers(N, AVAIL_HEIGHT, h);
    DivisorsMembers(K, AVAIL_WIDTH, w);
  }

  /** `memory_used_<f>(int(N/h), int(K/w), M, density, w, h)`. */
  function Usage(f: Format, bound: BoundOracle, measure: MeasureOracle,
                 N: nat, K: nat, density: nat, M: nat, h: Pos, w: Pos): real
  {
    MemoryUsed(f, bound, measure, N / h, K / w, M, density, w, h)
  }

  /** The tuple main builds for grid `h x w`: its memory and its tile size
      `(N/h) * (K/w)`. */
  function Pricing(f: Format, bound: BoundOracle, measure: MeasureOracle, N: nat, K: nat, density: nat): Pricer {
    (M: nat, h: Pos, w: Pos) => Config(Usage(f, bound, measure, N, K, density, M, h, w), h, w, (N / h) * (K / w), M)
  }

  /** The `configs` comprehension: the candidates strictly under the budget,
      priced, in candidate order. */
  function Fitting(price: Pricer, M: nat, cands: seq<(Pos, Pos)>): seq<Config>
    decreases |cands|
  {
    if cands == [] then []
    else
      var (h, w) := cands[|cands| - 1];
      var c := price(M, h, w);
      Fitting(price, M, cands[..|cands| - 1]) + (if c.mem < (MEM - RESERVED) as real then [c] else [])
  }

  /** A configuration is kept for `M` exactly when it is the price of a
      candidate and lies strictly under the budget. */
  lemma {:induction false} FittingMembers(price: Pricer, M: nat, cands: seq<(Pos, Pos)>, c: Config)
    ensures c in Fitting(price, M, cands)
        <==> (exists p | p in cands :: c == price(M, p.0, p.1)) && c.mem < (MEM - RESERVED) as real
    decreases |cands|
  {
    if cands != [] {
      var init := cands[..|cands| - 1];
      assert cands == init + [cands[|cands| - 1]];
      FittingMembers(price, M, init, c);
    }
  }

  /** The properties the stages sort and filter by. */
  datatype Key = ByMem | ByNtkt | ByM

  function KeyOf(c: Config, key: Key): real {
    match key
    case ByMem => c.mem
    case ByNtkt => c.ntkt as real
    case ByM => c.M as real
  }

  /** `sorted(cs, key=...)[-1][key]`: the largest key value. */
  function MaxKey(cs: seq<Config>, key: Key): (top: real)
    requires |cs| > 0
    ensures forall i | 0 <= i < |cs| :: KeyOf(cs[i], key) <= top
    ensures exists i | 0 <= i < |cs| :: KeyOf(cs[i], key) == top
    decreases |cs|
  {
    if |cs| == 1 then KeyOf(cs[0], key)
    else
      var rest := MaxKey(cs[..|cs| - 1], key);
      var last := KeyOf(cs[|cs| - 1], key);
      if last > rest then last else rest
  }

  /** The filters of the pipeline: within 5% of a largest memory, a given
      tile size, a given `M`. */
  datatype Criterion = NearMem(top: real) | NtktIs(v: real) | MIs(v: real) | And(a: Criterion, b: Criterion)

  predicate Meets(c: Config, k: Criterion) {
    match k
    case NearMem(top) => top - top * 0.05 < c.mem
    case NtktIs(v) => v == c.ntkt as real
    case MIs(v) => v == c.M as real
    case And(a, b) => Meets(c, a) && Meets(c, b)
  }

  /** The configurations of `cs` meeting `k`, in order. */
  function Keep(cs: seq<Config>, k: Criterion): seq<Config>
    decreases |cs|
  {
    if cs == [] then []
    else Keep(cs[..|cs| - 1], k) + (if Meets(cs[|cs| - 1], k) then [cs[|cs| - 1]] else [])
  }

  lemma {:induction false} KeepMembers(cs: seq<Config>, k: Criterion, c: Config)
    ensures c in Keep(cs, k) <==> c in cs && Meets(c, k)
    decreases |cs|
  {
    if cs != [] {
      var init := cs[..|cs| - 1];
      assert cs == init + [cs[|cs| - 1]];
      KeepMembers(init, k, c);
    }
  }

  /** The first kept configuration is the first one of `cs` meeting `k`. */
  lemma {:induction false} KeepFirst(cs: seq<Config>, k: Criterion)
    ensures Keep(cs, k) != [] <==> exists i | 0 <= i < |cs| :: Meets(cs[i], k)
    ensures Keep(cs, k) != [] ==>
      exists i | 0 <= i < |cs| :: cs[i] == Keep(cs, k)[0] && Meets(cs[i], k)
        && forall j | 0 <= j < i :: !Meets(cs[j], k)
    decreases |cs|
  {
    if cs != [] {
      var init := cs[..|cs| - 1];
      KeepFirst(init, k);
      assert forall j | 0 <= j < |init| :: cs[j] == init[j];
    }
  }

  /** The `configs` list of each width `M`, for fixed prices and candidates. */
  type Table = nat -> seq<Config>

  function Fits(price: Pricer, cands: seq<(Pos, Pos)>): Table {
    (M: nat) => Fitting(price, M, cands)
  }

  /** The for-M loop: the configurations within 5% of each width's largest,
      appended width by width, or the first width for which none fits. */
  function Collect(table: Table, Ms: seq<nat>): Result<seq<Config>, SearchError>
    decreases |Ms|
  {
    if Ms == [] then Success([])
    else
      var before := Collect(table, Ms[..|Ms| - 1]);
      var M := Ms[|Ms| - 1];
      var configs := table(M);
      if before.Failure? then before
      else if configs == [] then Failure(NoConfigFits(M))
      else Success(before.value + Keep(configs, NearMem(MaxKey(configs, ByMem))))
  }

  /** Collection fails exactly when some width admits no grid, and then it
      names the first such width. */
  lemma {:induction false} CollectFails(table: Table, Ms: seq<nat>)
    ensures var r := Collect(table, Ms);
      r.Failure? <==> exists i | 0 <= i < |Ms| :: table(Ms[i]) == []
    ensures var r := Collect(table, Ms);
      r.Failure? ==> r.error.NoConfigFits? && exists i | 0 <= i < |Ms| ::
        r.error.M == Ms[i] && table(Ms[i]) == []
        && forall j | 0 <= j < i :: table(Ms[j]) != []
    decreases |Ms|
  {
    if Ms != [] {
      var init := Ms[..|Ms| - 1];
      var last := |Ms| - 1;
      CollectFails(table, init);
      var before := Collect(table, init);
      assert forall j | 0 <= j < |init| :: Ms[j] == init[j];
      if before.Failure? {
        var i :| 0 <= i < |init| && before.error.M == init[i]
          && table(init[i]) == []
          && forall j | 0 <= j < i :: table(init[j]) != [];
        assert Ms[i] == init[i];
      } else if table(Ms[last]) == [] {
      } else {
        forall i | 0 <= i < |Ms| ensures table(Ms[i]) != [] {
          if i < last {
            assert Ms[i] == init[i];
          }
        }
      }
    }
  }

  /** Every collected configuration comes from one of the widths and lies
      within 5% of that width's largest. */
  lemma {:induction false} CollectKept(table: Table, Ms: seq<nat>, c: Config)
    requires Collect(table, Ms).Success?
    requires c in Collect(table, Ms).value
    ensures exists M | M in Ms :: c in table(M) && Meets(c, NearMem(MaxKey(table(M), ByMem)))
    decreases |Ms|
  {
    var init := Ms[..|Ms| - 1];
    var M := Ms[|Ms| - 1];
    var before := Collect(table, init);
    var configs := table(M);
    if c in before.value {
      CollectKept(table, init, c);
      var M' :| M' in init && c in table(M') && Meets(c, NearMem(MaxKey(table(M'), ByMem)));
      assert M' in Ms;
    } else {
      KeepMembers(configs, NearMem(MaxKey(configs, ByMem)), c);
    }
  }

  /** A collected configuration with the pricing of `Fits` is the price of
      a candidate grid at its own width, and lies strictly under the budget. */
  lemma CollectPriced(price: Pricer, cands: seq<(Pos, Pos)>, Ms: seq<nat>, c: Config)
    requires Collect(Fits(price, cands), Ms).Success?
    requires c in Collect(Fits(price, cands), Ms).value
    requires forall M: nat, h: Pos, w: Pos :: price(M, h, w).M == M
    ensures c.M in Ms && c.mem < (MEM - RESERVED) as real
    ensures exists p | p in cands :: c == price(c.M, p.0, p.1)
  {
    CollectKept(Fits(price, cands), Ms, c);
    var M :| M in Ms && c in Fitting(price, M, cands) && Meets(c, NearMem(MaxKey(Fitting(price, M, cands), ByMem)));
    FittingMembers(price, M, cands, c);
    var p :| p in cands && c == price(M, p.0, p.1);
  }

  /** The stages after collection: largest tile, within 5% of the most memory
      at that tile size, widest `M`, first in order. */
  function Choose(output: seq<Config>): Result<Config, SearchError> {
    if output == [] then Failure(NothingKept)
    else
      var maxNtkt := MaxKey(output, ByNtkt);
      var ntktConfig := Keep(output, NtktIs(maxNtkt));
      KeepNonEmpty(output, NtktIs(maxNtkt));
      var memMax := MaxKey(ntktConfig, ByMem);
      var result := Keep(ntktConfig, NearMem(memMax));
      if result == [] then Failure(NothingKept)
      else
        var maxM := MaxKey(result, ByM);
        KeepNonEmpty(result, MIs(maxM));
        Success(Keep(result, MIs(maxM))[0])
  }

  lemma KeepNonEmpty(cs: seq<Config>, k: Criterion)
    requires exists i | 0 <= i < |cs| :: Meets(cs[i], k)
    ensures Keep(cs, k) != []
  {
    KeepFirst(cs, k);
  }

  /** What the chosen configuration wins by. */
  function Qualifying(output: seq<Config>): Criterion
    requires output != []
  {
    var maxNtkt := MaxKey(output, ByNtkt);
    KeepNonEmpty(output, NtktIs(maxNtkt));
    And(NtktIs(maxNtkt), NearMem(MaxKey(Keep(output, NtktIs(maxNtkt)), ByMem)))
  }

  predicate Qualifies(output: seq<Config>, c: Config)
    requires output != []
  {
    Meets(c, Qualifying(output))
  }

  /** The choice has the largest tile size of all collected configurations,
      lies within 5% of the most memory at that size, has the widest `M` of
      those, and no configuration before it in `output` does as well. */
  lemma ChooseBest(output: seq<Config>)
    requires Choose(output).Success?
    ensures output != []
    ensures var c := Choose(output).value;
      && c in output && Qualifies(output, c)
      && (forall d | d in output :: d.ntkt <= c.ntkt)
      && (forall d | d in output && Qualifies(output, d) :: d.M <= c.M)
      && exists i | 0 <= i < |output| :: output[i] == c
           && forall j | 0 <= j < i :: !(Qualifies(output, output[j]) && output[j].M == c.M)
  {
    var c := Choose(output).value;
    var maxNtkt := MaxKey(output, ByNtkt);
    var ntktConfig := Keep(output, NtktIs(maxNtkt));
    KeepNonEmpty(output, NtktIs(maxNtkt));
    var memMax := MaxKey(ntktConfig, ByMem);
    var result := Keep(ntktConfig, NearMem(memMax));
    var maxM := MaxKey(result, ByM);
    var final := Keep(result, MIs(maxM));
    KeepNonEmpty(result, MIs(maxM));
    assert c == final[0];
    KeepMembers(result, MIs(maxM), c);
    KeepMembers(ntktConfig, NearMem(memMax), c);
    KeepMembers(output, NtktIs(maxNtkt), c);
    forall d | d in output ensures d.ntkt <= c.ntkt {
      var i :| 0 <= i < |output| && output[i] == d;
      assert KeyOf(output[i], ByNtkt) <= maxNtkt;
    }
    forall d | d in output && Qualifies(output, d) ensures d.M <= c.M {
      KeepMembers(output, NtktIs(maxNtkt), d);
      KeepMembers(ntktConfig, NearMem(memMax), d);
      var i :| 0 <= i < |result| && result[i] == d;
      assert KeyOf(result[i], ByM) <= maxM;
    }
    ChooseFirst(output, c, maxNtkt, memMax, ntktConfig, result, maxM);
  }

  /** Filtering three times keeps the order: the first configuration meeting
      all three criteria is the first of the last list. */
  lemma ChooseFirst(output: seq<Config>, c: Config, maxNtkt: real, memMax: real,
                    ntktConfig: seq<Config>, result: seq<Config>, maxM: real)
    requires output != []
    requires maxNtkt == MaxKey(output, ByNtkt) && ntktConfig == Keep(output, NtktIs(maxNtkt))
    requires ntktConfig != [] && memMax == MaxKey(ntktConfig, ByMem)
    requires result == Keep(ntktConfig, NearMem(memMax)) && result != [] && maxM == MaxKey(result, ByM)
    requires Keep(result, MIs(maxM)) != [] && c == Keep(result, MIs(maxM))[0]
    ensures exists i | 0 <= i < |output| ::
      (output[i] == c && forall j | 0 <= j < i :: !(Qualifies(output, output[j]) && output[j].M == c.M))
  {
    var all := And(And(NtktIs(maxNtkt), NearMem(memMax)), MIs(maxM));
    KeepKeep(output, NtktIs(maxNtkt), NearMem(memMax));
    KeepKeep(output, And(NtktIs(maxNtkt), NearMem(memMax)), MIs(maxM));
    assert Keep(output, all) == Keep(result, MIs(maxM));
    KeepFirst(output, all);
    KeepMembers(result, MIs(maxM), c);
    var i :| 0 <= i < |output| && output[i] == c && Meets(output[i], all)
      && forall j | 0 <= j < i :: !Meets(output[j], all);
    assert Qualifying(output) == And(NtktIs(maxNtkt), NearMem(memMax));
    assert c.M as real == maxM;
    forall j | 0 <= j < i ensures !(Qualifies(output, output[j]) && output[j].M == c.M) {
      assert !Meets(output[j], all);
    }
  }

  /** Filtering twice is filtering once by both criteria. */
  lemma {:induction false} KeepKeep(cs: seq<Config>, a: Criterion, b: Criterion)
    ensures Keep(Keep(cs, a), b) == Keep(cs, And(a, b))
    decreases |cs|
  {
    if cs != [] {
      var init, last := cs[..|cs| - 1], cs[|cs| - 1];
      KeepKeep(init, a, b);
      var once := Keep(init, a);
      if Meets(last, a) {
        var once' := once + [last];
        assert Keep(cs, a) == once';
        assert once'[..|once'| - 1] == once;
        assert Keep(once', b) == Keep(once, b) + (if Meets(last, b) then [last] else []);
      } else {
        assert Keep(cs, a) == once;
        assert !Meets(last, And(a, b));
      }
    }
  }

  /** The `output` list of main for an `N x K` matrix at one density. */
  function Collected(f: Format, bound: BoundOracle, measure: MeasureOracle,
                     N: nat, K: nat, density: nat): Result<seq<Config>, SearchError>
  {
    Collect(Fits(Pricing(f, bound, measure, N, K, density), Candidates(N, K)), DENSE_WIDTHS)
  }

  /** One row of the table for an `N x K` matrix at one density. */
  function PlanFor(f: Format, bound: BoundOracle, measure: MeasureOracle,
                   N: nat, K: nat, density: nat): Result<Plan, SearchError>
  {
    var output := Collected(f, bound, measure, N, K, density);
    if output.Failure? then Failure(output.error)
    else
      var choice := Choose(output.value);
      if choice.Failure? then Failure(choice.error)
      else Success(Plan(N, K, density, choice.value.h, choice.value.w, choice.value.M))
  }

  /** The later stages fail exactly when nothing was collected or the most
      memory among the largest tiles is not positive (then nothing lies
      strictly within 5% of it). */
  lemma ChooseFails(output: seq<Config>)
    ensures Choose(output).Failure? <==>
      output == [] || (KeepNonEmpty(output, NtktIs(MaxKey(output, ByNtkt)));
                       MaxKey(Keep(output, NtktIs(MaxKey(output, ByNtkt))), ByMem) <= 0.0)
  {
    if output != [] {
      var maxNtkt := MaxKey(output, ByNtkt);
      var ntktConfig := Keep(output, NtktIs(maxNtkt));
      KeepNonEmpty(output, NtktIs(maxNtkt));
      var memMax := MaxKey(ntktConfig, ByMem);
      KeepFirst(ntktConfig, NearMem(memMax));
      if memMax > 0.0 {
        var i :| 0 <= i < |ntktConfig| && KeyOf(ntktConfig[i], ByMem) == memMax;
        assert Meets(ntktConfig[i], NearMem(memMax));
      } else {
        forall i | 0 <= i < |ntktConfig| ensures !Meets(ntktConfig[i], NearMem(memMax)) {
          assert KeyOf(ntktConfig[i], ByMem) <= memMax;
        }
      }
    }
  }

  /** A failing prefix of widths makes the whole collection fail the same way. */
  lemma {:induction false} CollectStops(table: Table, Ms: seq<nat>, k: nat)
    requires k <= |Ms|
    requires Collect(table, Ms[..k]).Failure?
    ensures Collect(table, Ms) == Collect(table, Ms[..k])
    decreases |Ms|
  {
    if k < |Ms| {
      var init := Ms[..|Ms| - 1];
      assert init[..k] == Ms[..k];
      CollectStops(table, init, k);
    } else {
      assert Ms[..k] == Ms;
    }
  }

  /** `for config in configs: if mem_max - mem_max*0.05 < config[0]: out.append(config)`. */
  method AppendNear(out: seq<Config>, configs: seq<Config>, memMax: real) returns (out': seq<Config>)
    ensures out' == out + Keep(configs, NearMem(memMax))
  {
    out' := out;
    var k := 0;
    while k < |configs|
      invariant 0 <= k <= |configs|
      invariant out' == out + Keep(configs[..k], NearMem(memMax))
    {
      var config := configs[k];
      if memMax - memMax * 0.05 < config.mem {
        out' := out' + [Config(config.mem, config.h, config.w, config.ntkt, config.M)];
      }
      assert configs[..k + 1][..k] == configs[..k];
      k := k + 1;
    }
    assert configs[..k] == configs;
  }

  /** The width loop of main: price the grids, keep those within 5% of the
      largest that fits, append them to `output`. */
  method CollectOutput(price: Pricer, zipped: seq<(Pos, Pos)>, Ms: seq<nat>) returns (r: Result<seq<Config>, SearchError>)
    ensures r == Collect(Fits(price, zipped), Ms)
  {
    var output: seq<Config> := [];
    var mi := 0;
    while mi < |Ms|
      invariant 0 <= mi <= |Ms|
      invariant Collect(Fits(price, zipped), Ms[..mi]) == Success(output)
    {
      var M := Ms[mi];
      var configs := Fitting(price, M, zipped);
      assert Ms[..mi + 1][..mi] == Ms[..mi];
      if configs == [] {
        CollectStops(Fits(price, zipped), Ms, mi + 1);
        return Failure(NoConfigFits(M));
      }
      var memMax := MaxKey(configs, ByMem);
      output := AppendNear(output, configs, memMax);
      mi := mi + 1;
    }
    assert Ms[..mi] == Ms;
    r := Success(output);
  }

  /** The stages of main after the width loop. */
  method ChooseFrom(output: seq<Config>) returns (r: Result<Config, SearchError>)
    ensures r == Choose(output)
  {
    if output == [] {
      return Failure(NothingKept);
    }
    var maxNtkt := MaxKey(output, ByNtkt);
    var ntktConfig := Keep(output, NtktIs(maxNtkt));
    KeepNonEmpty(output, NtktIs(maxNtkt));
    var memMax := MaxKey(ntktConfig, ByMem);
    var result := AppendNear([], ntktConfig, memMax);
    assert result == Keep(ntktConfig, NearMem(memMax));
    if result == [] {
      return Failure(NothingKept);
    }
    var maxM := MaxKey(result, ByM);
    var finalOutput := Keep(result, MIs(maxM));
    KeepNonEmpty(result, MIs(maxM));
    r := Success(finalOutput[0]);
  }

  /** The body of main for one matrix shape and density. */
  method PlanOne(f: Format, bound: BoundOracle, measure: MeasureOracle, N: nat, K: nat, density: nat)
    returns (r: Result<Plan, SearchError>)
    ensures r == PlannerOf(f, bound, measure)(N, K, density)
  {
    var gridHeights := Divisors(N, AVAIL_HEIGHT);
    var gridWidths := Divisors(K, AVAIL_WIDTH);
    var zipped := Product(gridHeights, gridWidths);
    var output := CollectOutput(Pricing(f, bound, measure, N, K, density), zipped, DENSE_WIDTHS);
    if output.Failure? {
      return Failure(output.error);
    }
    var chosen := ChooseFrom(output.value);
    if chosen.Failure? {
      return Failure(chosen.error);
    }
    var c := chosen.value;
    r := Success(Plan(N, K, density, c.h, c.w, c.M));
  }

  /** The row of each matrix `N x K` at each density. */
  type Planner = (nat, nat, nat) -> Result<Plan, SearchError>

  function PlannerOf(f: Format, bound: BoundOracle, measure: MeasureOracle): Planner {
    (N: nat, K: nat, density: nat) => PlanFor(f, bound, measure, N, K, density)
  }

  /** The rows of one density, shape by shape. */
  function PlansAt(planner: Planner, density: nat, shapes: seq<(nat, nat)>): Result<seq<Plan>, SearchError>
    decreases |shapes|
  {
    if shapes == [] then Success([])
    else
      var before := PlansAt(planner, density, shapes[..|shapes| - 1]);
      if before.Failure? then before
      else
        var (N, K) := shapes[|shapes| - 1];
        var plan := planner(N, K, density);
        if plan.Failure? then Failure(plan.error) else Success(before.value + [plan.value])
  }

  /** The rows of each density. */
  type Rows = nat -> Result<seq<Plan>, SearchError>

  function RowsOf(planner: Planner, shapes: seq<(nat, nat)>): Rows {
    (density: nat) => PlansAt(planner, density, shapes)
  }

  /** The table for densities `ds` (outer), each density's rows in turn. */
  function Sweep(rows: Rows, ds: seq<nat>): Result<seq<Plan>, SearchError>
    decreases |ds|
  {
    if ds == [] then Success([])
    else
      var before := Sweep(rows, ds[..|ds| - 1]);
      if before.Failure? then before
      else
        var these := rows(ds[|ds| - 1]);
        if these.Failure? then Failure(these.error) else Success(before.value + these.value)
  }

  lemma {:induction false} SweepStops(rows: Rows, ds: seq<nat>, k: nat)
    requires k <= |ds| && Sweep(rows, ds[..k]).Failure?
    ensures Sweep(rows, ds) == Sweep(rows, ds[..k])
    decreases |ds|
  {
    if k < |ds| {
      assert ds[..|ds| - 1][..k] == ds[..k];
      SweepStops(rows, ds[..|ds| - 1], k);
    } else {
      assert ds[..k] == ds;
    }
  }

  lemma {:induction false} PlansAtStops(planner: Planner, density: nat, shapes: seq<(nat, nat)>, k: nat)
    requires k <= |shapes| && PlansAt(planner, density, shapes[..k]).Failure?
    ensures PlansAt(planner, density, shapes) == PlansAt(planner, density, shapes[..k])
    decreases |shapes|
  {
    if k < |shapes| {
      assert shapes[..|shapes| - 1][..k] == shapes[..k];
      PlansAtStops(planner, density, shapes[..|shapes| - 1], k);
    } else {
      assert shapes[..k] == shapes;
    }
  }

  /** The rows of one density are the planner's rows of the shapes, in order. */
  lemma {:induction false} PlansAtRows(planner: Planner, density: nat, shapes: seq<(nat, nat)>)
    requires PlansAt(planner, density, shapes).Success?
    ensures var plans := PlansAt(planner, density, shapes).value;
      |plans| == |shapes| && forall i | 0 <= i < |plans| :: planner(shapes[i].0, shapes[i].1, density) == Success(plans[i])
    decreases |shapes|
  {
    if shapes != [] {
      var init := shapes[..|shapes| - 1];
      PlansAtRows(planner, density, init);
      var before := PlansAt(planner, density, init).value;
      var plans := PlansAt(planner, density, shapes).value;
      forall i | 0 <= i < |plans| ensures planner(shapes[i].0, shapes[i].1, density) == Success(plans[i]) {
        if i < |before| {
          assert plans[i] == before[i] && shapes[i] == init[i];
        }
      }
    }
  }

  /** The sweep is the densities' rows one after another: every row comes
      from one density, and with `n` rows per density there are `n * |ds|`. */
  lemma {:induction false} SweepRows(rows: Rows, ds: seq<nat>, n: nat)
    requires Sweep(rows, ds).Success?
    requires forall d | d in ds :: rows(d).Success? ==> |rows(d).value| == n
    ensures var plans := Sweep(rows, ds).value;
      |plans| == |ds| * n && forall p | p in plans :: exists d | d in ds :: rows(d).Success? && p in rows(d).value
    decreases |ds|
  {
    if ds != [] {
      var init := ds[..|ds| - 1];
      var d := ds[|ds| - 1];
      SweepRows(rows, init, n);
      var before := Sweep(rows, init).value;
      MulSucc(|init|, n);
      forall p | p in before + rows(d).value ensures exists d' | d' in ds :: rows(d').Success? && p in rows(d').value {
        if p in before {
          var d' :| d' in init && rows(d').Success? && p in rows(d').value;
          assert d' in ds;
        }
      }
    }
  }

  lemma PlansAtStep(planner: Planner, density: nat, shapes: seq<(nat, nat)>, si: nat, rows: seq<Plan>)
    requires si < |shapes| && PlansAt(planner, density, shapes[..si]) == Success(rows)
    ensures var plan := planner(shapes[si].0, shapes[si].1, density);
      PlansAt(planner, density, shapes[..si + 1]) == if plan.Failure? then Failure(plan.error) else Success(rows + [plan.value])
  {
    assert shapes[..si + 1][..si] == shapes[..si];
  }

  /** The inner loop of main over the matrix shapes at one density. */
  method PlanShapes(f: Format, bound: BoundOracle, measure: MeasureOracle, density: nat, shapes: seq<(nat, nat)>)
    returns (r: Result<seq<Plan>, SearchError>)
    ensures r == PlansAt(PlannerOf(f, bound, measure), density, shapes)
  {
    var rows: seq<Plan> := [];
    var si := 0;
    while si < |shapes|
      invariant 0 <= si <= |shapes|
      invariant PlansAt(PlannerOf(f, bound, measure), density, shapes[..si]) == Success(rows)
    {
      var (N, K) := shapes[si];
      var plan := PlanOne(f, bound, measure, N, K, density);
      PlansAtStep(PlannerOf(f, bound, measure), density, shapes, si, rows);
      if plan.Failure? {
        PlansAtStops(PlannerOf(f, bound, measure), density, shapes, si + 1);
        return Failure(plan.error);
      }
      rows := rows + [plan.value];
      si := si + 1;
    }
    assert shapes[..si] == shapes;
    r := Success(rows);
  }

  /** main's outer loop over densities, appending each density's rows to
      `f_out`; an IndexError anywhere ends the sweep. */
  method PlanSweep(f: Format, bound: BoundOracle, measure: MeasureOracle, ds: seq<nat>, shapes: seq<(nat, nat)>)
    returns (r: Result<seq<Plan>, SearchError>)
    ensures r == Sweep(RowsOf(PlannerOf(f, bound, measure), shapes), ds)
  {
    var fOut: seq<Plan> := [];
    var di := 0;
    while di < |ds|
      invariant 0 <= di <= |ds|
      invariant Sweep(RowsOf(PlannerOf(f, bound, measure), shapes), ds[..di]) == Success(fOut)
    {
      assert ds[..di + 1][..di] == ds[..di];
      var rows := PlanShapes(f, bound, measure, ds[di], shapes);
      if rows.Failure? {
        SweepStops(RowsOf(PlannerOf(f, bound, measure), shapes), ds, di + 1);
        return Failure(rows.error);
      }
      fOut := fOut + rows.value;
      di := di + 1;
    }
    assert ds[..di] == ds;
    r := Success(fOut);
  }

  /** The six columns main prints, in order. */
  const COLUMN_NAMES: seq<string> := ["A_heights", "A_widths", "A_densities", "grid_h", "grid_w", "M_w"]

  /** Column `k` of a table row. */
  function Field(p: Plan, k: nat): nat
    requires k < 6
  {
    if k == 0 then p.N else if k == 1 then p.K else if k == 2 then p.density
    else if k == 3 then p.h else if k == 4 then p.w else p.M
  }

  function Column(plans: seq<Plan>, k: nat): (col: seq<nat>)
    requires k < 6
    ensures |col| == |plans| && forall i | 0 <= i < |plans| :: col[i] == Field(plans[i], k)
    decreases |plans|
  {
    if plans == [] then [] else Column(plans[..|plans| - 1], k) + [Field(plans[|plans| - 1], k)]
  }

  /** `[str(x) for x in vals]`. */
  function Numerals(vals: seq<nat>): (ts: seq<string>)
    ensures |ts| == |vals| && forall i | 0 <= i < |vals| :: ts[i] == NatToString(vals[i])
    decreases |vals|
  {
    if vals == [] then [] else Numerals(vals[..|vals| - 1]) + [NatToString(vals[|vals| - 1])]
  }

  /** `print(f"{name}=({' '.join(...)})")`, newline included. */
  function PrintedLine(name: string, vals: seq<nat>): string {
    name + "=(" + Join(Numerals(vals), " ") + ")" + "\n"
  }

  /** The six lines printed after the sweep. */
  function PrintedLines(plans: seq<Plan>): (lines: seq<string>)
    ensures |lines| == 6
    ensures forall k | 0 <= k < 6 :: lines[k] == PrintedLine(COLUMN_NAMES[k], Column(plans, k))
  {
    seq(6, k requires 0 <= k < 6 => PrintedLine(COLUMN_NAMES[k], Column(plans, k)))
  }

  /** A row the search can print: an admissible grid whose usage lies
      strictly under the budget. */
  predicate Admitted(f: Format, bound: BoundOracle, measure: MeasureOracle, p: Plan) {
    && 1 <= p.h < AVAIL_HEIGHT && p.N % p.h == 0 && 1 <= p.w < AVAIL_WIDTH && p.K % p.w == 0
    && MemoryUsed(f, bound, measure, p.N / p.h, p.K / p.w, p.M, p.density, p.w, p.h) < (MEM - RESERVED) as real
  }

  /** A row planned for `N x K` at `density` is admitted and describes that matrix. */
  lemma PlanForAdmitted(f: Format, bound: BoundOracle, measure: MeasureOracle, N: nat, K: nat, density: nat)
    requires PlanFor(f, bound, measure, N, K, density).Success?
    ensures var p := PlanFor(f, bound, measure, N, K, density).value;
      Admitted(f, bound, measure, p) && p.N == N && p.K == K && p.density == density && p.M in DENSE_WIDTHS
  {
    var price := Pricing(f, bound, measure, N, K, density);
    var cands := Candidates(N, K);
    var output := Collected(f, bound, measure, N, K, density);
    assert output == Collect(Fits(price, cands), DENSE_WIDTHS);
    var c := Choose(output.value).value;
    ChooseBest(output.value);
    CollectPriced(price, cands, DENSE_WIDTHS, c);
    var q :| q in cands && c == price(c.M, q.0, q.1);
    CandidatesAdmissible(N, K, q.0, q.1);
    assert c.h == q.0 && c.w == q.1;
    assert c.mem == Usage(f, bound, measure, N, K, density, c.M, q.0, q.1);
  }

  /** Every row of the sweep is an admitted grid for one of the shapes at
      one of the densities, and there is one row per density and shape. */
  lemma SweepAdmitted(f: Format, bound: BoundOracle, measure: MeasureOracle, ds: seq<nat>, shapes: seq<(nat, nat)>)
    requires Sweep(RowsOf(PlannerOf(f, bound, measure), shapes), ds).Success?
    ensures var plans := Sweep(RowsOf(PlannerOf(f, bound, measure), shapes), ds).value;
      |plans| == |ds| * |shapes|
      && forall p | p in plans :: Admitted(f, bound, measure, p) && p.density in ds && (p.N, p.K) in shapes
  {
    var planner := PlannerOf(f, bound, measure);
    var rows := RowsOf(planner, shapes);
    forall d | d in ds && rows(d).Success? ensures |rows(d).value| == |shapes| {
      PlansAtRows(planner, d, shapes);
    }
    SweepRows(rows, ds, |shapes|);
    var plans := Sweep(rows, ds).value;
    forall p | p in plans ensures Admitted(f, bound, measure, p) && p.density in ds && (p.N, p.K) in shapes {
      var d :| d in ds && rows(d).Success? && p in rows(d).value;
      PlansAtRows(planner, d, shapes);
      var these := rows(d).value;
      var i :| 0 <= i < |these| && these[i] == p;
      var (N, K) := shapes[i];
      assert PlanFor(f, bound, measure, N, K, d) == Success(p);
      PlanForAdmitted(f, bound, measure, N, K, d);
    }
  }
}
