/** The coverage cube: 11 rules x 4 ODD zones x 5 disturbance bins x 5 seeds. */
module CoverageCube {
  import opened Options

  datatype Rule =
    | Rule5 | Rule6 | Rule7 | Rule8 | Rule9 | Rule13 | Rule14 | Rule15 | Rule16 | Rule17 | Rule19
    | UnknownRule(text: string)

  datatype Zone = OpenSea | CoastalTrafficSeparation | PortApproach | OffshoreWindFarm | OtherZone(text: string)

  datatype Bin = Bf01 | Bf23 | Bf45 | Bf67 | SensorDegraded

  datatype Cell = Cell(rule: Rule, zone: Zone, bin: Bin, seed: int)

  const COLREG_RULES: seq<Rule> := [Rule5, Rule6, Rule7, Rule8, Rule9, Rule13, Rule14, Rule15, Rule16, Rule17, Rule19]
  const ODD_ZONES: seq<Zone> := [OpenSea, CoastalTrafficSeparation, PortApproach, OffshoreWindFarm]
  const DISTURBANCE_BINS: seq<Bin> := [Bf01, Bf23, Bf45, Bf67, SensorDegraded]
  const SEEDS: seq<int> := [1, 2, 3, 4, 5]
  const TOTAL_CELLS := 1100

  /** `wind_kn_to_bin` */
  function WindToBin(windKn: real, visM: real): Bin {
    if visM < 5000.0 then SensorDegraded
    else if windKn < 3.5 then Bf01
    else if windKn < 10.7 then Bf23
    else if windKn < 21.6 then Bf45
    else Bf67
  }

  datatype Mark = Mark(rule: string, zone: Zone, windKn: real, visM: real, seed: int)

  /** `normalize` is `_normalize_rule`; unknown rules are ignored and unknown zones count as open sea. */
  function Marked(normalize: string -> Rule, lit: set<Cell>, m: Mark): set<Cell> {
    var rule := normalize(m.rule);
    if rule !in COLREG_RULES then lit
    else lit + {Cell(rule, if m.zone in ODD_ZONES then m.zone else OpenSea, WindToBin(m.windKn, m.visM), m.seed)}
  }

  /** Cells of `cells` that are lit. */
  function CountIn(lit: set<Cell>, cells: seq<Cell>): nat {
    if cells == [] then 0 else (if cells[0] in lit then 1 else 0) + CountIn(lit, cells[1..])
  }

  function SeedCells(rule: Rule, zone: Zone, bin: Bin, seeds: seq<int>): seq<Cell> {
    if seeds == [] then [] else [Cell(rule, zone, bin, seeds[0])] + SeedCells(rule, zone, bin, seeds[1..])
  }

  function BinCells(rule: Rule, zone: Zone, bins: seq<Bin>, seeds: seq<int>): seq<Cell> {
    if bins == [] then []
    else SeedCells(rule, zone, bins[0], seeds) + BinCells(rule, zone, bins[1..], seeds)
  }

  /** The 25 cells behind one entry of the matrix, in the order of the comprehension. */
  function EntryCells(rule: Rule, zone: Zone): seq<Cell> {
    BinCells(rule, zone, DISTURBANCE_BINS, SEEDS)
  }

  function HeatRow(lit: set<Cell>, rule: Rule, zones: seq<Zone>): (r: seq<nat>)
    ensures |r| == |zones|
  {
    seq(|zones|, j requires 0 <= j < |zones| => CountIn(lit, EntryCells(rule, zones[j])))
  }

  function HeatMatrix(lit: set<Cell>, rules: seq<Rule>, zones: seq<Zone>): (m: seq<seq<nat>>)
    ensures |m| == |rules|
  {
    seq(|rules|, i requires 0 <= i < |rules| => HeatRow(lit, rules[i], zones))
  }

  function RulesOf(filter: Option<Rule>): seq<Rule> {
    if filter.Some? then [filter.value] else COLREG_RULES
  }

  function ZonesOf(filter: Option<Zone>): seq<Zone> {
    if filter.Some? then [filter.value] else ODD_ZONES
  }

  predicate Matches(c: Cell, rule: Option<Rule>, zone: Option<Zone>) {
    (rule.None? || c.rule == rule.value) && (zone.None? || c.zone == zone.value)
  }

  function Matching(lit: set<Cell>, rule: Option<Rule>, zone: Option<Zone>): set<Cell> {
    set c | c in lit && Matches(c, rule, zone)
  }

  class CoverageCube {
    const normalize: string -> Rule
    var lit: set<Cell>

    constructor (normalize: string -> Rule)
      ensures this.normalize == normalize && lit == {}
    {
      this.normalize := normalize;
      lit := {};
    }

    method MarkCell(rule: string, zone: Zone, windKn: real, visM: real, seed: int)
      modifies this
      ensures lit == Marked(normalize, old(lit), Mark.Mark(rule, zone, windKn, visM, seed))
    {
      var key := normalize(rule);
      if key !in COLREG_RULES {
        return;
      }
      var place := zone;
      if place !in ODD_ZONES {
        place := OpenSea;
      }
      lit := lit + {Cell(key, place, WindToBin(windKn, visM), seed)};
    }

    /** `to_heatmap_matrix` with its filters (the later of its two definitions, which replaces the first). */
    method ToHeatmapMatrix(filterRule: Option<Rule>, filterZone: Option<Zone>) returns (matrix: seq<seq<nat>>)
      ensures matrix == HeatMatrix(lit, RulesOf(filterRule), ZonesOf(filterZone))
    {
      matrix := MatrixOver(RulesOf(filterRule), ZonesOf(filterZone));
    }

    method MatrixOver(rules: seq<Rule>, zones: seq<Zone>) returns (matrix: seq<seq<nat>>)
      ensures matrix == HeatMatrix(lit, rules, zones)
    {
      matrix := [];
      for i := 0 to |rules|
        invariant |matrix| == i
        invariant forall k :: 0 <= k < i ==> matrix[k] == HeatRow(lit, rules[k], zones)
      {
        var row: seq<nat> := [];
        for j := 0 to |zones|
          invariant |row| == j
          invariant forall k :: 0 <= k < j ==> row[k] == CountIn(lit, EntryCells(rules[i], zones[k]))
        {
          row := row + [CountIn(lit, EntryCells(rules[i], zones[j]))];
        }
        matrix := matrix + [row];
      }
    }

    /** `filtered_cells_lit` */
    method FilteredCellsLit(filterRule: Option<Rule>, filterZone: Option<Zone>) returns (count: nat)
      ensures count == |Matching(lit, filterRule, filterZone)|
    {
      count := 0;
      var rest := lit;
      while rest != {}
        invariant rest <= lit
        invariant count + |Matching(rest, filterRule, filterZone)| == |Matching(lit, filterRule, filterZone)|
        decreases |rest|
      {
        var c :| c in rest;
        var others := rest - {c};
        MatchingWithout(rest, c, filterRule, filterZone);
        rest := others;
        if filterRule.Some? && c.rule != filterRule.value {
          continue;
        }
        if filterZone.Some? && c.zone != filterZone.value {
          continue;
        }
        count := count + 1;
      }
    }
  }

  lemma MatchingWithout(lit: set<Cell>, c: Cell, rule: Option<Rule>, zone: Option<Zone>)
    requires c in lit
    ensures |Matching(lit, rule, zone)|
         == |Matching(lit - {c}, rule, zone)| + if Matches(c, rule, zone) then 1 else 0
  {
    if Matches(c, rule, zone) {
      assert Matching(lit, rule, zone) == Matching(lit - {c}, rule, zone) + {c};
    } else {
      assert Matching(lit, rule, zone) == Matching(lit - {c}, rule, zone);
    }
  }

  // ----- Sums over the matrix -----

  function RowSum(row: seq<nat>): nat {
    if row == [] then 0 else row[0] + RowSum(row[1..])
  }

  function MatrixSum(m: seq<seq<nat>>): nat {
    if m == [] then 0 else RowSum(m[0]) + MatrixSum(m[1..])
  }

  function RowCells(rule: Rule, zones: seq<Zone>): seq<Cell> {
    if zones == [] then [] else EntryCells(rule, zones[0]) + RowCells(rule, zones[1..])
  }

  /** Every cell the matrix looks at, in order. */
  function MatrixCells(rules: seq<Rule>, zones: seq<Zone>): seq<Cell> {
    if rules == [] then [] else RowCells(rules[0], zones) + MatrixCells(rules[1..], zones)
  }

  lemma {:induction false} CountConcat(lit: set<Cell>, a: seq<Cell>, b: seq<Cell>)
    ensures CountIn(lit, a + b) == CountIn(lit, a) + CountIn(lit, b)
  {
    if a == [] {
      assert a + b == b;
    } else {
      assert (a + b)[1..] == a[1..] + b;
      CountConcat(lit, a[1..], b);
    }
  }

  lemma {:induction false} RowSumCounts(lit: set<Cell>, rule: Rule, zones: seq<Zone>)
    ensures RowSum(HeatRow(lit, rule, zones)) == CountIn(lit, RowCells(rule, zones))
  {
    if zones != [] {
      RowSumCounts(lit, rule, zones[1..]);
      assert HeatRow(lit, rule, zones)[1..] == HeatRow(lit, rule, zones[1..]);
      CountConcat(lit, EntryCells(rule, zones[0]), RowCells(rule, zones[1..]));
    }
  }

  lemma {:induction false} MatrixSumCounts(lit: set<Cell>, rules: seq<Rule>, zones: seq<Zone>)
    ensures MatrixSum(HeatMatrix(lit, rules, zones)) == CountIn(lit, MatrixCells(rules, zones))
  {
    if rules != [] {
      MatrixSumCounts(lit, rules[1..], zones);
      assert HeatMatrix(lit, rules, zones)[1..] == HeatMatrix(lit, rules[1..], zones);
      RowSumCounts(lit, rules[0], zones);
      CountConcat(lit, RowCells(rules[0], zones), MatrixCells(rules[1..], zones));
    }
  }

  ghost predicate Distinct<T(!new)>(s: seq<T>) {
    forall i, j :: 0 <= i < j < |s| ==> s[i] != s[j]
  }

  lemma JoinDistinct<T(!new)>(a: seq<T>, b: seq<T>)
    requires Distinct(a) && Distinct(b) && forall x :: !(x in a && x in b)
    ensures Distinct(a + b)
  {
    forall i, j | 0 <= i < j < |a + b| ensures (a + b)[i] != (a + b)[j] {
      if i < |a| <= j {
        assert a[i] in a && b[j - |a|] in b;
      }
    }
  }

  lemma DistinctTail<T(!new)>(s: seq<T>)
    requires Distinct(s) && s != []
    ensures Distinct(s[1..]) && s[0] !in s[1..]
    ensures forall x :: x in s <==> x == s[0] || x in s[1..]
  {
  }

  lemma {:induction false} SeedCellsMeaning(rule: Rule, zone: Zone, bin: Bin, seeds: seq<int>)
    requires Distinct(seeds)
    ensures Distinct(SeedCells(rule, zone, bin, seeds)) && |SeedCells(rule, zone, bin, seeds)| == |seeds|
    ensures forall c: Cell :: c in SeedCells(rule, zone, bin, seeds)
                         <==> c.rule == rule && c.zone == zone && c.bin == bin && c.seed in seeds
  {
    if seeds != [] {
      DistinctTail(seeds);
      SeedCellsMeaning(rule, zone, bin, seeds[1..]);
    }
  }

  lemma {:induction false} BinCellsMeaning(rule: Rule, zone: Zone, bins: seq<Bin>, seeds: seq<int>)
    requires Distinct(bins) && Distinct(seeds)
    ensures Distinct(BinCells(rule, zone, bins, seeds))
    ensures forall c: Cell :: c in BinCells(rule, zone, bins, seeds)
                         <==> c.rule == rule && c.zone == zone && c.bin in bins && c.seed in seeds
  {
    if bins != [] {
      DistinctTail(bins);
      SeedCellsMeaning(rule, zone, bins[0], seeds);
      BinCellsMeaning(rule, zone, bins[1..], seeds);
      JoinDistinct(SeedCells(rule, zone, bins[0], seeds), BinCells(rule, zone, bins[1..], seeds));
    }
  }

  lemma {:induction false} BinCellsSize(rule: Rule, zone: Zone, bins: seq<Bin>, seeds: seq<int>)
    requires |seeds| == 5 && Distinct(seeds)
    ensures |BinCells(rule, zone, bins, seeds)| == 5 * |bins|
  {
    if bins != [] {
      SeedCellsMeaning(rule, zone, bins[0], seeds);
      BinCellsSize(rule, zone, bins[1..], seeds);
    }
  }

  lemma AllBinsListed(b: Bin)
    ensures b in DISTURBANCE_BINS
  {
  }

  lemma SeedListed(n: int)
    ensures n in SEEDS <==> 1 <= n <= 5
  {
  }

  lemma EntryCellsOver(rule: Rule, zone: Zone, bins: seq<Bin>, seeds: seq<int>)
    requires Distinct(bins) && Distinct(seeds) && |bins| == |seeds| == 5
    requires (forall b :: b in bins) && (forall n :: n in seeds <==> 1 <= n <= 5)
    ensures Distinct(BinCells(rule, zone, bins, seeds)) && |BinCells(rule, zone, bins, seeds)| == 25
    ensures forall c: Cell :: c in BinCells(rule, zone, bins, seeds)
                         <==> c.rule == rule && c.zone == zone && 1 <= c.seed <= 5
  {
    BinCellsMeaning(rule, zone, bins, seeds);
    BinCellsSize(rule, zone, bins, seeds);
  }

  lemma EntryCellsMeaning(rule: Rule, zone: Zone)
    ensures Distinct(EntryCells(rule, zone)) && |EntryCells(rule, zone)| == 25
    ensures forall c: Cell :: c in EntryCells(rule, zone) <==> c.rule == rule && c.zone == zone && 1 <= c.seed <= 5
  {
    forall b ensures b in DISTURBANCE_BINS {
      AllBinsListed(b);
    }
    forall n ensures n in SEEDS <==> 1 <= n <= 5 {
      SeedListed(n);
    }
    EntryCellsOver(rule, zone, DISTURBANCE_BINS, SEEDS);
  }

  lemma {:induction false} RowCellsMeaning(rule: Rule, zones: seq<Zone>)
    requires Distinct(zones)
    ensures Distinct(RowCells(rule, zones)) && |RowCells(rule, zones)| == 25 * |zones|
    ensures forall c: Cell :: c in RowCells(rule, zones) <==> c.rule == rule && c.zone in zones && 1 <= c.seed <= 5
  {
    if zones != [] {
      DistinctTail(zones);
      EntryCellsMeaning(rule, zones[0]);
      RowCellsMeaning(rule, zones[1..]);
      JoinDistinct(EntryCells(rule, zones[0]), RowCells(rule, zones[1..]));
    }
  }

  lemma {:induction false} MatrixCellsMeaning(rules: seq<Rule>, zones: seq<Zone>)
    requires Distinct(rules) && Distinct(zones)
    ensures Distinct(MatrixCells(rules, zones))
    ensures forall c: Cell :: c in MatrixCells(rules, zones)
                         <==> c.rule in rules && c.zone in zones && 1 <= c.seed <= 5
  {
    if rules != [] {
      DistinctTail(rules);
      RowCellsMeaning(rules[0], zones);
      MatrixCellsMeaning(rules[1..], zones);
      JoinDistinct(RowCells(rules[0], zones), MatrixCells(rules[1..], zones));
    }
  }

  lemma {:induction false} MatrixCellsSize(rules: seq<Rule>, zones: seq<Zone>)
    requires |zones| == 4 && Distinct(zones)
    ensures |MatrixCells(rules, zones)| == 100 * |rules|
  {
    if rules != [] {
      RowCellsMeaning(rules[0], zones);
      MatrixCellsSize(rules[1..], zones);
    }
  }

  /** Counting the lit cells of a duplicate-free list is measuring a set. */
  lemma {:induction false} CountIsSize(lit: set<Cell>, cells: seq<Cell>)
    requires Distinct(cells)
    ensures CountIn(lit, cells) == |set c | c in lit && c in cells|
    ensures CountIn(lit, cells) <= |cells|
  {
    var here := set c | c in lit && c in cells;
    if cells == [] {
      assert here == {};
    } else {
      var rest := set c | c in lit && c in cells[1..];
      CountIsSize(lit, cells[1..]);
      DistinctTail(cells);
      if cells[0] in lit {
        assert here == rest + {cells[0]};
      } else {
        assert here == rest;
      }
    }
  }

  /** Each entry of the matrix is the number of lit cells of its rule and zone with a seed in 1..5. */
  lemma HeatEntryMeaning(lit: set<Cell>, rules: seq<Rule>, zones: seq<Zone>, i: nat, j: nat)
    requires i < |rules| && j < |zones|
    ensures HeatMatrix(lit, rules, zones)[i][j]
         == |set c | c in lit && c.rule == rules[i] && c.zone == zones[j] && 1 <= c.seed <= 5|
  {
    var cells := EntryCells(rules[i], zones[j]);
    EntryCellsMeaning(rules[i], zones[j]);
    CountIsSize(lit, cells);
    assert (set c | c in lit && c in cells)
        == set c | c in lit && c.rule == rules[i] && c.zone == zones[j] && 1 <= c.seed <= 5;
  }

  // ----- Counts over every sequence of marks -----

  function MarkAll(normalize: string -> Rule, lit: set<Cell>, marks: seq<Mark>): set<Cell>
    decreases |marks|
  {
    if marks == [] then lit else MarkAll(normalize, Marked(normalize, lit, marks[0]), marks[1..])
  }

  ghost predicate InRange(lit: set<Cell>) {
    forall c :: c in lit ==> c.rule in COLREG_RULES && c.zone in ODD_ZONES
  }

  ghost predicate SeedsInRange(cells: set<Cell>) {
    forall c :: c in cells ==> 1 <= c.seed <= 5
  }

  lemma GrowingSize(a: set<Cell>, b: set<Cell>)
    ensures a <= b ==> |a| <= |b|
  {
    if a <= b {
      assert b == a + (b - a);
    }
  }

  /** Marks never take a cell away, only light known rules and zones, and carry their seed over as it is. */
  lemma {:induction false} MarkAllMeaning(normalize: string -> Rule, lit: set<Cell>, marks: seq<Mark>)
    requires InRange(lit)
    ensures InRange(MarkAll(normalize, lit, marks))
    ensures lit <= MarkAll(normalize, lit, marks)
    ensures |lit| <= |MarkAll(normalize, lit, marks)|
    ensures SeedsInRange(lit) && (forall m :: m in marks ==> 1 <= m.seed <= 5)
        ==> SeedsInRange(MarkAll(normalize, lit, marks))
    decreases |marks|
  {
    if marks != [] {
      var next := Marked(normalize, lit, marks[0]);
      assert OpenSea == ODD_ZONES[0];
      MarkAllMeaning(normalize, next, marks[1..]);
    }
    GrowingSize(lit, MarkAll(normalize, lit, marks));
  }

  /** `m` lights `c`: its rule is known, and its zone too or the cell lies in the open sea. */
  ghost predicate Lights(normalize: string -> Rule, m: Mark, c: Cell) {
    && c.rule == normalize(m.rule) && c.rule in COLREG_RULES
    && c.zone in ODD_ZONES && (c.zone == m.zone || (m.zone !in ODD_ZONES && c.zone == OpenSea))
    && c.bin == WindToBin(m.windKn, m.visM) && c.seed == m.seed
  }

  lemma MarkLights(normalize: string -> Rule, lit: set<Cell>, m: Mark, c: Cell)
    ensures c in Marked(normalize, lit, m) <==> c in lit || Lights(normalize, m, c)
  {
    assert OpenSea == ODD_ZONES[0];
  }

  /** After any sequence of marks exactly those cells are lit that were lit before or that some mark lights. */
  lemma {:induction false} MarkedCells(normalize: string -> Rule, lit: set<Cell>, marks: seq<Mark>, c: Cell)
    ensures c in MarkAll(normalize, lit, marks) <==> c in lit || exists m :: m in marks && Lights(normalize, m, c)
    decreases |marks|
  {
    if marks != [] {
      MarkLights(normalize, lit, marks[0], c);
      MarkedCells(normalize, Marked(normalize, lit, marks[0]), marks[1..], c);
      assert forall m :: m in marks <==> m == marks[0] || m in marks[1..];
    }
  }

  lemma DistinctLists(rule: Option<Rule>, zone: Option<Zone>)
    ensures Distinct(RulesOf(rule)) && Distinct(ZonesOf(zone))
  {
  }

  lemma MatrixCountsCells(lit: set<Cell>, rules: seq<Rule>, zones: seq<Zone>)
    requires Distinct(rules) && Distinct(zones)
    ensures MatrixSum(HeatMatrix(lit, rules, zones))
         == |set c | c in lit && c.rule in rules && c.zone in zones && 1 <= c.seed <= 5|
    ensures MatrixSum(HeatMatrix(lit, rules, zones)) <= |MatrixCells(rules, zones)|
  {
    var cells := MatrixCells(rules, zones);
    MatrixSumCounts(lit, rules, zones);
    MatrixCellsMeaning(rules, zones);
    CountIsSize(lit, cells);
    assert (set c | c in lit && c in cells)
        == set c | c in lit && c.rule in rules && c.zone in zones && 1 <= c.seed <= 5;
  }

  /** The lists select, among the lit cells, those that match the filter. */
  ghost predicate Select(lit: set<Cell>, rules: seq<Rule>, zones: seq<Zone>, rule: Option<Rule>, zone: Option<Zone>) {
    forall c :: c in lit ==> (Matches(c, rule, zone) <==> c.rule in rules && c.zone in zones)
  }

  lemma FilterListsSelect(lit: set<Cell>, rule: Option<Rule>, zone: Option<Zone>)
    requires InRange(lit)
    ensures Select(lit, RulesOf(rule), ZonesOf(zone), rule, zone)
  {
  }

  function WithSeed(cells: set<Cell>): set<Cell> {
    set c | c in cells && 1 <= c.seed <= 5
  }

  /** The matrix counts exactly the lit cells that match the filter and have a seed in 1..5. */
  lemma HeatmapCounts(lit: set<Cell>, rules: seq<Rule>, zones: seq<Zone>, rule: Option<Rule>, zone: Option<Zone>)
    requires Distinct(rules) && Distinct(zones) && Select(lit, rules, zones, rule, zone)
    ensures MatrixSum(HeatMatrix(lit, rules, zones)) == |WithSeed(Matching(lit, rule, zone))|
  {
    MatrixCountsCells(lit, rules, zones);
    assert (set c | c in lit && c.rule in rules && c.zone in zones && 1 <= c.seed <= 5)
        == WithSeed(Matching(lit, rule, zone));
  }

  lemma SizesAgreeIff(all: set<Cell>)
    ensures |all| == |WithSeed(all)| <==> SeedsInRange(all)
  {
    if SeedsInRange(all) {
      assert WithSeed(all) == all;
    } else {
      assert WithSeed(all) < all;
      ProperSubsetSmaller(WithSeed(all), all);
    }
  }

  /** After any sequence of marks and for every filter, the filtered count equals the sum of the filtered
      matrix exactly when no matching cell was marked with a seed outside 1..5. */
  lemma CountsAgreeIff(normalize: string -> Rule, marks: seq<Mark>, rule: Option<Rule>, zone: Option<Zone>)
    ensures var lit := MarkAll(normalize, {}, marks);
            |Matching(lit, rule, zone)| == MatrixSum(HeatMatrix(lit, RulesOf(rule), ZonesOf(zone)))
            <==> SeedsInRange(Matching(lit, rule, zone))
  {
    var lit := MarkAll(normalize, {}, marks);
    MarkAllMeaning(normalize, {}, marks);
    DistinctLists(rule, zone);
    FilterListsSelect(lit, rule, zone);
    HeatmapCounts(lit, RulesOf(rule), ZonesOf(zone), rule, zone);
    SizesAgreeIff(Matching(lit, rule, zone));
  }

  lemma ProperSubsetSmaller(a: set<Cell>, b: set<Cell>)
    requires a < b
    ensures |a| < |b|
  {
    assert b == a + (b - a);
    assert b - a != {};
  }

  lemma MatrixWithinCells(lit: set<Cell>, rules: seq<Rule>, zones: seq<Zone>)
    requires Distinct(rules) && Distinct(zones) && |zones| == 4
    ensures MatrixSum(HeatMatrix(lit, rules, zones)) <= 100 * |rules|
  {
    MatrixCountsCells(lit, rules, zones);
    MatrixCellsSize(rules, zones);
  }

  lemma FullMatrixCountsAll(lit: set<Cell>, rules: seq<Rule>, zones: seq<Zone>)
    requires Distinct(rules) && Distinct(zones) && |zones| == 4
    requires Select(lit, rules, zones, None, None) && SeedsInRange(lit)
    ensures |lit| == MatrixSum(HeatMatrix(lit, rules, zones)) <= 100 * |rules|
  {
    HeatmapCounts(lit, rules, zones, None, None);
    MatrixWithinCells(lit, rules, zones);
    assert WithSeed(Matching(lit, None, None)) == lit;
  }

  /** With seeds in 1..5 the cube never holds more than its 1100 cells, and the unfiltered matrix sums to
      `cells_lit`. */
  lemma CubeBounded(normalize: string -> Rule, marks: seq<Mark>)
    requires forall m :: m in marks ==> 1 <= m.seed <= 5
    ensures var lit := MarkAll(normalize, {}, marks);
            && |lit| == MatrixSum(HeatMatrix(lit, RulesOf(None), ZonesOf(None)))
            && |lit| <= TOTAL_CELLS
  {
    var lit := MarkAll(normalize, {}, marks);
    MarkAllMeaning(normalize, {}, marks);
    DistinctLists(None, None);
    FilterListsSelect(lit, None, None);
    FullMatrixCountsAll(lit, RulesOf(None), ZonesOf(None));
  }
}
