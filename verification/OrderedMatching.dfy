/**
 * Bounded weighted ordered matching (packages/agent-edit/src/ordered-matching.ts): a
 * dynamic-programming table of 32-bit cells with a traceback, the equality matcher built on it,
 * and the patience-sorting fallback for tables that would be too large.
 */
module OrderedMatching {
  import opened Wrappers

  type Pair = (nat, nat)
  type Weight = (nat, nat) -> nat

  const UINT32_LIMIT: nat := 0x1_0000_0000
  const MAX_EQUAL_MATCH_CELLS: nat := 250_000

  // ------------------------------------------------------------------------------------------
  // What a matching is
  // ------------------------------------------------------------------------------------------

  /** Strictly increasing on both sides. */
  ghost predicate Ordered(ms: seq<Pair>) {
    forall p, q :: 0 <= p < q < |ms| ==> ms[p].0 < ms[q].0 && ms[p].1 < ms[q].1
  }

  ghost predicate Within(ms: seq<Pair>, oldStart: nat, oldEnd: nat, newStart: nat, newEnd: nat) {
    forall p :: 0 <= p < |ms| ==> oldStart <= ms[p].0 < oldEnd && newStart <= ms[p].1 < newEnd
  }

  /** In-order pairs of the two index ranges; a pair of weight 0 never matches. */
  ghost predicate Matching(w: Weight, ms: seq<Pair>, oldStart: nat, oldEnd: nat, newStart: nat, newEnd: nat) {
    && Ordered(ms)
    && Within(ms, oldStart, oldEnd, newStart, newEnd)
    && forall p :: 0 <= p < |ms| ==> w(ms[p].0, ms[p].1) > 0
  }

  ghost function Total(w: Weight, ms: seq<Pair>): nat {
    if ms == [] then 0 else w(ms[0].0, ms[0].1) + Total(w, ms[1..])
  }

  /** No ordered matching of the two ranges weighs more than `ms`. */
  ghost predicate Heaviest(w: Weight, ms: seq<Pair>, oldStart: nat, oldEnd: nat, newStart: nat, newEnd: nat) {
    && Matching(w, ms, oldStart, oldEnd, newStart, newEnd)
    && forall other :: Matching(w, other, oldStart, oldEnd, newStart, newEnd) ==> Total(w, other) <= Total(w, ms)
  }

  /** Every matching's total can be held in one table cell. */
  ghost predicate FitsTable(w: Weight, oldStart: nat, oldEnd: nat, newStart: nat, newEnd: nat) {
    forall ms :: Matching(w, ms, oldStart, oldEnd, newStart, newEnd) ==> Total(w, ms) < UINT32_LIMIT
  }

  // ------------------------------------------------------------------------------------------
  // What the table and the traceback compute
  // ------------------------------------------------------------------------------------------

  function Max(a: nat, b: nat): nat {
    if a >= b then a else b
  }

  /** A store into a `Uint32Array`. */
  function ToUint32(n: nat): nat {
    n % UINT32_LIMIT
  }

  /** The table cell for the suffixes from `i` and `j`, each store wrapped to 32 bits. */
  function Cell(w: Weight, i: nat, oldEnd: nat, j: nat, newEnd: nat): nat
    requires i <= oldEnd && j <= newEnd
    decreases oldEnd - i + newEnd - j
  {
    if i == oldEnd || j == newEnd then 0 else
      var skip := Max(Cell(w, i + 1, oldEnd, j, newEnd), Cell(w, i, oldEnd, j + 1, newEnd));
      ToUint32(if w(i, j) > 0 then Max(skip, w(i, j) + Cell(w, i + 1, oldEnd, j + 1, newEnd)) else skip)
  }

  /** The whole table as a function of the two suffix starts. */
  function Cells(w: Weight, oldEnd: nat, newEnd: nat): Weight {
    (i: nat, j: nat) => if i <= oldEnd && j <= newEnd then Cell(w, i, oldEnd, j, newEnd) else 0
  }

  /** What the walk does where it stands. */
  datatype Step = Match | SkipOld | SkipNew

  function StepAt(w: Weight, cell: Weight, i: nat, j: nat): Step {
    if ToUint32(w(i, j)) > 0 && cell(i, j) == ToUint32(w(i, j)) + cell(i + 1, j + 1) then Match
    else if cell(i + 1, j) >= cell(i, j + 1) then SkipOld
    else SkipNew
  }

  /** The walk through a table: prefer a match, then skip an old index, then a new one. */
  function Walk(w: Weight, cell: Weight, i: nat, oldEnd: nat, j: nat, newEnd: nat): seq<Pair>
    requires i <= oldEnd && j <= newEnd
    decreases oldEnd - i + newEnd - j
  {
    if i == oldEnd || j == newEnd then []
    else
      match StepAt(w, cell, i, j)
      case Match => [(i, j)] + Walk(w, cell, i + 1, oldEnd, j + 1, newEnd)
      case SkipOld => Walk(w, cell, i + 1, oldEnd, j, newEnd)
      case SkipNew => Walk(w, cell, i, oldEnd, j + 1, newEnd)
  }

  /** What the matcher returns. */
  function Traced(w: Weight, oldStart: nat, oldEnd: nat, newStart: nat, newEnd: nat): seq<Pair>
    requires oldStart <= oldEnd && newStart <= newEnd
  {
    Walk(w, Cells(w, oldEnd, newEnd), oldStart, oldEnd, newStart, newEnd)
  }

  /** The unbounded optimum, the reference the 32-bit cells are compared with. */
  ghost function Optimum(w: Weight, i: nat, oldEnd: nat, j: nat, newEnd: nat): nat
    requires i <= oldEnd && j <= newEnd
    decreases oldEnd - i + newEnd - j
  {
    if i == oldEnd || j == newEnd then 0 else
      Max(Max(Optimum(w, i + 1, oldEnd, j, newEnd), Optimum(w, i, oldEnd, j + 1, newEnd)),
          w(i, j) + Optimum(w, i + 1, oldEnd, j + 1, newEnd))
  }

  // ------------------------------------------------------------------------------------------
  // The optimum is an upper bound, and is attained
  // ------------------------------------------------------------------------------------------

  lemma {:induction false} OptimumMonotone(w: Weight, i: nat, oldEnd: nat, j: nat, newEnd: nat)
    requires i < oldEnd && j < newEnd
    ensures Optimum(w, i + 1, oldEnd, j, newEnd) <= Optimum(w, i, oldEnd, j, newEnd)
    ensures Optimum(w, i, oldEnd, j + 1, newEnd) <= Optimum(w, i, oldEnd, j, newEnd)
    ensures w(i, j) + Optimum(w, i + 1, oldEnd, j + 1, newEnd) <= Optimum(w, i, oldEnd, j, newEnd)
  {}

  /** A matching whose first pair lies behind a row or a column fits without it. */
  lemma FrontFits(w: Weight, ms: seq<Pair>, i: nat, oldEnd: nat, j: nat, newEnd: nat)
    requires Matching(w, ms, i, oldEnd, j, newEnd) && ms != []
    ensures ms[0].0 > i ==> Matching(w, ms, i + 1, oldEnd, j, newEnd)
    ensures ms[0].1 > j ==> Matching(w, ms, i, oldEnd, j + 1, newEnd)
  {
  }

  lemma TailFits(w: Weight, ms: seq<Pair>, i: nat, oldEnd: nat, j: nat, newEnd: nat)
    requires Matching(w, ms, i, oldEnd, j, newEnd) && ms != []
    ensures Matching(w, ms[1..], ms[0].0 + 1, oldEnd, ms[0].1 + 1, newEnd)
  {
  }

  /** No ordered matching outweighs the optimum. */
  lemma {:induction false} OptimumBounds(w: Weight, ms: seq<Pair>, i: nat, oldEnd: nat, j: nat, newEnd: nat)
    requires i <= oldEnd && j <= newEnd
    requires Matching(w, ms, i, oldEnd, j, newEnd)
    ensures Total(w, ms) <= Optimum(w, i, oldEnd, j, newEnd)
    decreases oldEnd - i + newEnd - j
  {
    if ms != [] {
      assert i <= ms[0].0 < oldEnd && j <= ms[0].1 < newEnd;
      OptimumMonotone(w, i, oldEnd, j, newEnd);
      FrontFits(w, ms, i, oldEnd, j, newEnd);
      TailFits(w, ms, i, oldEnd, j, newEnd);
      if ms[0].0 > i {
        OptimumBounds(w, ms, i + 1, oldEnd, j, newEnd);
      } else if ms[0].1 > j {
        OptimumBounds(w, ms, i, oldEnd, j + 1, newEnd);
      } else {
        OptimumBounds(w, ms[1..], i + 1, oldEnd, j + 1, newEnd);
      }
    }
  }

  /** What one step of the recurrences keeps: no store wraps while the optimum fits a cell. */
  lemma {:induction false} StepIsExact(pair: nat, down: nat, right: nat, diagonal: nat)
    requires diagonal <= right
    ensures var optimum := Max(Max(down, right), pair + diagonal);
            optimum < UINT32_LIMIT ==>
              && down < UINT32_LIMIT && right < UINT32_LIMIT && diagonal < UINT32_LIMIT
              && ToUint32(pair) == pair
              && ToUint32(if pair > 0 then Max(Max(down, right), pair + diagonal) else Max(down, right)) == optimum
  {
    SmallIsKept(pair);
    SmallIsKept(Max(Max(down, right), pair + diagonal));
  }

  lemma SmallIsKept(n: nat)
    ensures n < UINT32_LIMIT ==> ToUint32(n) == n
  {}

  /** A cell holds the optimum when the three cells it is made from do. */
  lemma {:induction false} CellFollows(w: Weight, i: nat, oldEnd: nat, j: nat, newEnd: nat)
    requires i < oldEnd && j < newEnd && Optimum(w, i, oldEnd, j, newEnd) < UINT32_LIMIT
    requires Cell(w, i + 1, oldEnd, j, newEnd) == Optimum(w, i + 1, oldEnd, j, newEnd)
    requires Cell(w, i, oldEnd, j + 1, newEnd) == Optimum(w, i, oldEnd, j + 1, newEnd)
    requires Cell(w, i + 1, oldEnd, j + 1, newEnd) == Optimum(w, i + 1, oldEnd, j + 1, newEnd) <= Optimum(w, i, oldEnd, j + 1, newEnd)
    ensures Cell(w, i, oldEnd, j, newEnd) == Optimum(w, i, oldEnd, j, newEnd)
  {
    StepIsExact(w(i, j), Optimum(w, i + 1, oldEnd, j, newEnd), Optimum(w, i, oldEnd, j + 1, newEnd),
                Optimum(w, i + 1, oldEnd, j + 1, newEnd));
  }

  /** While the optimum fits a cell, no store wraps and the cell holds the optimum. */
  lemma {:induction false} CellIsOptimum(w: Weight, i: nat, oldEnd: nat, j: nat, newEnd: nat)
    requires i <= oldEnd && j <= newEnd
    requires Optimum(w, i, oldEnd, j, newEnd) < UINT32_LIMIT
    ensures Cell(w, i, oldEnd, j, newEnd) == Optimum(w, i, oldEnd, j, newEnd)
    decreases oldEnd - i + newEnd - j
  {
    if i < oldEnd && j < newEnd {
      OptimumMonotone(w, i, oldEnd, j, newEnd);
      DiagonalIsSmaller(w, i, oldEnd, j, newEnd);
      CellIsOptimum(w, i + 1, oldEnd, j, newEnd);
      CellIsOptimum(w, i, oldEnd, j + 1, newEnd);
      CellIsOptimum(w, i + 1, oldEnd, j + 1, newEnd);
      CellFollows(w, i, oldEnd, j, newEnd);
    }
  }

  lemma CellIsSmall(w: Weight, i: nat, oldEnd: nat, j: nat, newEnd: nat)
    requires i <= oldEnd && j <= newEnd
    ensures Cell(w, i, oldEnd, j, newEnd) < UINT32_LIMIT
  {}

  lemma {:induction false} DiagonalIsSmaller(w: Weight, i: nat, oldEnd: nat, j: nat, newEnd: nat)
    requires i < oldEnd && j < newEnd
    ensures Optimum(w, i + 1, oldEnd, j + 1, newEnd) <= Optimum(w, i, oldEnd, j + 1, newEnd)
  {
    if j + 1 < newEnd { OptimumMonotone(w, i, oldEnd, j + 1, newEnd); }
  }

  /** Whatever the table holds, the walk only ever yields ordered pairs of positive weight. */
  lemma {:induction false} WalkIsMatching(w: Weight, cell: Weight, i: nat, oldEnd: nat, j: nat, newEnd: nat)
    requires i <= oldEnd && j <= newEnd
    ensures Matching(w, Walk(w, cell, i, oldEnd, j, newEnd), i, oldEnd, j, newEnd)
    decreases oldEnd - i + newEnd - j
  {
    if i < oldEnd && j < newEnd {
      match StepAt(w, cell, i, j)
      case Match => WalkIsMatching(w, cell, i + 1, oldEnd, j + 1, newEnd);
      case SkipOld => WalkIsMatching(w, cell, i + 1, oldEnd, j, newEnd);
      case SkipNew => WalkIsMatching(w, cell, i, oldEnd, j + 1, newEnd);
    }
  }

  /** The cells around one position are the optima around it. */
  lemma CellsAreOptima(w: Weight, cell: Weight, i: nat, oldEnd: nat, j: nat, newEnd: nat)
    requires i < oldEnd && j < newEnd
    requires cell == Cells(w, oldEnd, newEnd)
    requires Optimum(w, i, oldEnd, j, newEnd) < UINT32_LIMIT
    ensures ToUint32(w(i, j)) == w(i, j)
    ensures cell(i, j) == Optimum(w, i, oldEnd, j, newEnd) == Max(Max(cell(i + 1, j), cell(i, j + 1)), w(i, j) + cell(i + 1, j + 1))
    ensures cell(i + 1, j) == Optimum(w, i + 1, oldEnd, j, newEnd)
    ensures cell(i, j + 1) == Optimum(w, i, oldEnd, j + 1, newEnd)
    ensures cell(i + 1, j + 1) == Optimum(w, i + 1, oldEnd, j + 1, newEnd) <= cell(i, j + 1)
  {
    DiagonalIsSmaller(w, i, oldEnd, j, newEnd);
    StepIsExact(w(i, j), Optimum(w, i + 1, oldEnd, j, newEnd), Optimum(w, i, oldEnd, j + 1, newEnd),
                Optimum(w, i + 1, oldEnd, j + 1, newEnd));
    CellIsOptimum(w, i, oldEnd, j, newEnd);
    CellIsOptimum(w, i + 1, oldEnd, j, newEnd);
    CellIsOptimum(w, i, oldEnd, j + 1, newEnd);
    CellIsOptimum(w, i + 1, oldEnd, j + 1, newEnd);
  }

  lemma {:induction false} WalkAttains(w: Weight, cell: Weight, i: nat, oldEnd: nat, j: nat, newEnd: nat)
    requires i <= oldEnd && j <= newEnd
    requires cell == Cells(w, oldEnd, newEnd)
    requires Optimum(w, i, oldEnd, j, newEnd) < UINT32_LIMIT
    ensures Total(w, Walk(w, cell, i, oldEnd, j, newEnd)) == Optimum(w, i, oldEnd, j, newEnd)
    decreases oldEnd - i + newEnd - j
  {
    if i < oldEnd && j < newEnd {
      CellsAreOptima(w, cell, i, oldEnd, j, newEnd);
      if w(i, j) > 0 && cell(i, j) == w(i, j) + cell(i + 1, j + 1) {
        WalkAttains(w, cell, i + 1, oldEnd, j + 1, newEnd);
        var rest := Walk(w, cell, i + 1, oldEnd, j + 1, newEnd);
        assert ([(i, j)] + rest)[1..] == rest;
      } else if cell(i + 1, j) >= cell(i, j + 1) {
        WalkAttains(w, cell, i + 1, oldEnd, j, newEnd);
      } else {
        WalkAttains(w, cell, i, oldEnd, j + 1, newEnd);
      }
    }
  }

  lemma PairThenRest(w: Weight, rest: seq<Pair>, i: nat, oldEnd: nat, j: nat, newEnd: nat)
    requires i < oldEnd && j < newEnd && Matching(w, rest, i + 1, oldEnd, j + 1, newEnd) && w(i, j) > 0
    ensures Matching(w, [(i, j)] + rest, i, oldEnd, j, newEnd)
    ensures Total(w, [(i, j)] + rest) == w(i, j) + Total(w, rest)
  {
    assert ([(i, j)] + rest)[1..] == rest;
  }

  /** A matching that weighs the optimum exists, so the optimum fits exactly when all totals do. */
  lemma {:induction false} SomeMatchingAttains(w: Weight, i: nat, oldEnd: nat, j: nat, newEnd: nat) returns (ms: seq<Pair>)
    requires i <= oldEnd && j <= newEnd
    ensures Matching(w, ms, i, oldEnd, j, newEnd)
    ensures Total(w, ms) == Optimum(w, i, oldEnd, j, newEnd)
    decreases oldEnd - i + newEnd - j
  {
    ms := [];
    if i < oldEnd && j < newEnd {
      DiagonalIsSmaller(w, i, oldEnd, j, newEnd);
      if Optimum(w, i, oldEnd, j, newEnd) == Optimum(w, i + 1, oldEnd, j, newEnd) {
        ms := SomeMatchingAttains(w, i + 1, oldEnd, j, newEnd);
      } else if Optimum(w, i, oldEnd, j, newEnd) == Optimum(w, i, oldEnd, j + 1, newEnd) {
        ms := SomeMatchingAttains(w, i, oldEnd, j + 1, newEnd);
      } else {
        var rest := SomeMatchingAttains(w, i + 1, oldEnd, j + 1, newEnd);
        ms := [(i, j)] + rest;
        PairThenRest(w, rest, i, oldEnd, j, newEnd);
      }
    }
  }

  /** The traceback finds a heaviest matching whenever every total fits a cell. */
  lemma {:induction false} TracedIsHeaviest(w: Weight, oldStart: nat, oldEnd: nat, newStart: nat, newEnd: nat)
    requires oldStart <= oldEnd && newStart <= newEnd
    requires FitsTable(w, oldStart, oldEnd, newStart, newEnd)
    ensures Heaviest(w, Traced(w, oldStart, oldEnd, newStart, newEnd), oldStart, oldEnd, newStart, newEnd)
  {
    var best := SomeMatchingAttains(w, oldStart, oldEnd, newStart, newEnd);
    WalkIsMatching(w, Cells(w, oldEnd, newEnd), oldStart, oldEnd, newStart, newEnd);
    WalkAttains(w, Cells(w, oldEnd, newEnd), oldStart, oldEnd, newStart, newEnd);
    forall other | Matching(w, other, oldStart, oldEnd, newStart, newEnd)
      ensures Total(w, other) <= Optimum(w, oldStart, oldEnd, newStart, newEnd)
    {
      OptimumBounds(w, other, oldStart, oldEnd, newStart, newEnd);
    }
  }

  /** The table's corner holds the heaviest total exactly when every total fits a cell. */
  lemma {:induction false} CornerIsExact(w: Weight, oldStart: nat, oldEnd: nat, newStart: nat, newEnd: nat)
    requires oldStart <= oldEnd && newStart <= newEnd
    ensures Cell(w, oldStart, oldEnd, newStart, newEnd) == Optimum(w, oldStart, oldEnd, newStart, newEnd)
            <==> FitsTable(w, oldStart, oldEnd, newStart, newEnd)
  {
    CellIsSmall(w, oldStart, oldEnd, newStart, newEnd);
    if Optimum(w, oldStart, oldEnd, newStart, newEnd) < UINT32_LIMIT {
      CellIsOptimum(w, oldStart, oldEnd, newStart, newEnd);
    }
    var best := SomeMatchingAttains(w, oldStart, oldEnd, newStart, newEnd);
    forall ms | Matching(w, ms, oldStart, oldEnd, newStart, newEnd)
      ensures Total(w, ms) <= Optimum(w, oldStart, oldEnd, newStart, newEnd)
    {
      OptimumBounds(w, ms, oldStart, oldEnd, newStart, newEnd);
    }
  }

  /** Without that bound the claim is false: one pair of weight 2^32 is stored as 0 and never matched. */
  lemma {:induction false} OverweightPairIsLost()
    ensures var w: Weight := (i, j) => UINT32_LIMIT;
            && Matching(w, [(0, 0)], 0, 1, 0, 1)
            && Total(w, Traced(w, 0, 1, 0, 1)) < Total(w, [(0, 0)])
  {
    var w: Weight := (i, j) => UINT32_LIMIT;
    assert Cells(w, 1, 1)(1, 0) == 0 == Cells(w, 1, 1)(0, 1);
    assert Traced(w, 0, 1, 0, 1) == [];
    assert Total(w, [(0, 0)]) == w(0, 0) + Total(w, [(0, 0)][1..]);
  }

  // ------------------------------------------------------------------------------------------
  // The table itself
  // ------------------------------------------------------------------------------------------

  /** Where a row of a flat row-major table starts: `row * width`, added up row by row. */
  function RowStart(width: nat, row: nat): nat {
    if row == 0 then 0 else RowStart(width, row - 1) + width
  }

  function At(width: nat, row: nat, column: nat): nat {
    RowStart(width, row) + column
  }

  lemma {:induction false} RowStartIsProduct(width: nat, row: nat)
    ensures RowStart(width, row) == row * width
  {
    if row > 0 { RowStartIsProduct(width, row - 1); }
  }

  lemma {:induction false} RowsAreDisjoint(width: nat, row: nat, row': nat)
    requires row < row'
    ensures RowStart(width, row) + width <= RowStart(width, row')
  {
    if row + 1 < row' { RowsAreDisjoint(width, row, row' - 1); }
  }

  lemma AllInBounds(rows: nat, width: nat)
    ensures forall r, c :: 0 <= r < rows && 0 <= c < width ==> 0 <= At(width, r, c) < RowStart(width, rows)
  {
    forall r, c | 0 <= r < rows && 0 <= c < width
      ensures 0 <= At(width, r, c) < RowStart(width, rows)
    {
      RowsAreDisjoint(width, r, rows);
    }
  }

  lemma OthersDistinct(rows: nat, width: nat, row: nat, column: nat)
    requires row < rows && column < width
    ensures forall r, c :: 0 <= r < rows && 0 <= c < width && (r != row || c != column)
                           ==> At(width, r, c) != At(width, row, column)
  {
    forall r, c | 0 <= r < rows && 0 <= c < width && (r != row || c != column)
      ensures At(width, r, c) != At(width, row, column)
    {
      if r < row { RowsAreDisjoint(width, r, row); }
      if row < r { RowsAreDisjoint(width, row, r); }
    }
  }

  /** Rows below `row`, and in `row` itself the columns from `column`, hold the spec's cells. */
  ghost predicate BestFrom(w: Weight, best: seq<nat>, row: nat, column: nat,
                           oldStart: nat, rows: nat, newStart: nat, columns: nat, width: nat)
    requires width == columns + 1 && |best| == RowStart(width, rows + 1)
  {
    AllInBounds(rows + 1, width);
    && (forall r, c :: 0 <= r <= rows && 0 <= c <= columns && (r > row || (r == row && c >= column)) ==>
          best[At(width, r, c)] == Cell(w, oldStart + r, oldStart + rows, newStart + c, newStart + columns))
    && (forall r :: 0 <= r <= rows ==> best[At(width, r, columns)] == 0)
  }

  ghost predicate WeightsFrom(w: Weight, weights: seq<nat>, row: nat, column: nat,
                              oldStart: nat, rows: nat, newStart: nat, columns: nat)
    requires |weights| == RowStart(columns, rows)
  {
    AllInBounds(rows, columns);
    forall r, c :: 0 <= r < rows && 0 <= c < columns && (r > row || (r == row && c >= column)) ==>
      weights[At(columns, r, c)] == ToUint32(w(oldStart + r, newStart + c))
  }

  ghost predicate TableFrom(w: Weight, best: seq<nat>, weights: seq<nat>, row: nat, column: nat,
                            oldStart: nat, rows: nat, newStart: nat, columns: nat, width: nat)
    requires width == columns + 1
    requires |best| == RowStart(width, rows + 1) && |weights| == RowStart(columns, rows)
  {
    && BestFrom(w, best, row, column, oldStart, rows, newStart, columns, width)
    && WeightsFrom(w, weights, row, column, oldStart, rows, newStart, columns)
  }

  lemma BestStep(w: Weight, best: seq<nat>, best': seq<nat>, row: nat, column: nat,
                 oldStart: nat, rows: nat, newStart: nat, columns: nat, width: nat)
    requires width == columns + 1 && row < rows && column < columns && |best| == RowStart(width, rows + 1)
    requires BestFrom(w, best, row, column + 1, oldStart, rows, newStart, columns, width)
    requires At(width, row, column) < |best|
    requires best' == best[At(width, row, column) :=
                           Cell(w, oldStart + row, oldStart + rows, newStart + column, newStart + columns)]
    ensures BestFrom(w, best', row, column, oldStart, rows, newStart, columns, width)
  {
    AllInBounds(rows + 1, width);
    OthersDistinct(rows + 1, width, row, column);
  }

  lemma WeightsStep(w: Weight, weights: seq<nat>, weights': seq<nat>, row: nat, column: nat,
                    oldStart: nat, rows: nat, newStart: nat, columns: nat)
    requires row < rows && column < columns && |weights| == RowStart(columns, rows)
    requires WeightsFrom(w, weights, row, column + 1, oldStart, rows, newStart, columns)
    requires At(columns, row, column) < |weights|
    requires weights' == weights[At(columns, row, column) := ToUint32(w(oldStart + row, newStart + column))]
    ensures WeightsFrom(w, weights', row, column, oldStart, rows, newStart, columns)
  {
    AllInBounds(rows, columns);
    OthersDistinct(rows, columns, row, column);
  }

  /** The two filled tables hold the cells and the stored weights. */
  ghost predicate Holds(w: Weight, cell: Weight, best: seq<nat>, weights: seq<nat>,
                        oldStart: nat, rows: nat, newStart: nat, columns: nat, width: nat)
    requires width == columns + 1
    requires |best| == RowStart(width, rows + 1) && |weights| == RowStart(columns, rows)
  {
    AllInBounds(rows + 1, width);
    AllInBounds(rows, columns);
    && (forall r, c :: 0 <= r <= rows && 0 <= c <= columns ==>
          best[At(width, r, c)] == cell(oldStart + r, newStart + c))
    && (forall r, c :: 0 <= r < rows && 0 <= c < columns ==>
          weights[At(columns, r, c)] == ToUint32(w(oldStart + r, newStart + c)))
  }

  lemma FilledHolds(w: Weight, best: seq<nat>, weights: seq<nat>,
                    oldStart: nat, rows: nat, newStart: nat, columns: nat, width: nat)
    requires width == columns + 1
    requires |best| == RowStart(width, rows + 1) && |weights| == RowStart(columns, rows)
    requires TableFrom(w, best, weights, 0, 0, oldStart, rows, newStart, columns, width)
    ensures Holds(w, Cells(w, oldStart + rows, newStart + columns), best, weights,
                  oldStart, rows, newStart, columns, width)
  {}

  /** The two tables, filled from the bottom right. */
  method FillTable(w: Weight, oldStart: nat, rows: nat, newStart: nat, columns: nat, width: nat)
    returns (best: array<nat>, weights: array<nat>)
    requires width == columns + 1
    ensures best.Length == RowStart(width, rows + 1) && weights.Length == RowStart(columns, rows)
    ensures fresh(best) && fresh(weights)
    ensures Holds(w, Cells(w, oldStart + rows, newStart + columns), best[..], weights[..],
                  oldStart, rows, newStart, columns, width)
  {
    best := new nat[RowStart(width, rows + 1)](_ => 0);
    weights := new nat[RowStart(columns, rows)](_ => 0);
    AllInBounds(rows + 1, width);
    AllInBounds(rows, columns);
    assert TableFrom(w, best[..], weights[..], rows, 0, oldStart, rows, newStart, columns, width);
    for row := rows downto 0
      invariant TableFrom(w, best[..], weights[..], row, 0, oldStart, rows, newStart, columns, width)
    {
      assert TableFrom(w, best[..], weights[..], row, columns, oldStart, rows, newStart, columns, width);
      for column := columns downto 0
        invariant TableFrom(w, best[..], weights[..], row, column, oldStart, rows, newStart, columns, width)
      {
        FillCell(w, best, weights, row, column, oldStart, rows, newStart, columns, width);
      }
    }
    FilledHolds(w, best[..], weights[..], oldStart, rows, newStart, columns, width);
  }

  method FillCell(w: Weight, best: array<nat>, weights: array<nat>, row: nat, column: nat,
                  oldStart: nat, rows: nat, newStart: nat, columns: nat, width: nat)
    requires width == columns + 1 && row < rows && column < columns && best != weights
    requires best.Length == RowStart(width, rows + 1) && weights.Length == RowStart(columns, rows)
    requires TableFrom(w, best[..], weights[..], row, column + 1, oldStart, rows, newStart, columns, width)
    modifies best, weights
    ensures TableFrom(w, best[..], weights[..], row, column, oldStart, rows, newStart, columns, width)
  {
    ghost var best0, weights0 := best[..], weights[..];
    AllInBounds(rows + 1, width);
    AllInBounds(rows, columns);
    var pair := w(oldStart + row, newStart + column);
    weights[At(columns, row, column)] := ToUint32(pair);
    var skip := Max(best[At(width, row + 1, column)], best[At(width, row, column + 1)]);
    best[At(width, row, column)] :=
      ToUint32(if pair > 0 then Max(skip, pair + best[At(width, row + 1, column + 1)]) else skip);
    BestStep(w, best0, best[..], row, column, oldStart, rows, newStart, columns, width);
    WeightsStep(w, weights0, weights[..], row, column, oldStart, rows, newStart, columns);
  }

  /** The cells one position of the walk reads. */
  lemma HeldAt(w: Weight, cell: Weight, best: seq<nat>, weights: seq<nat>, row: nat, column: nat,
               oldStart: nat, rows: nat, newStart: nat, columns: nat, width: nat, i: nat, j: nat)
    requires width == columns + 1 && row < rows && column < columns
    requires |best| == RowStart(width, rows + 1) && |weights| == RowStart(columns, rows)
    requires Holds(w, cell, best, weights, oldStart, rows, newStart, columns, width)
    requires i == oldStart + row && j == newStart + column
    ensures At(columns, row, column) < |weights| && weights[At(columns, row, column)] == ToUint32(w(i, j))
    ensures At(width, row, column) < |best| && best[At(width, row, column)] == cell(i, j)
    ensures At(width, row + 1, column) < |best| && best[At(width, row + 1, column)] == cell(i + 1, j)
    ensures At(width, row, column + 1) < |best| && best[At(width, row, column + 1)] == cell(i, j + 1)
    ensures At(width, row + 1, column + 1) < |best| && best[At(width, row + 1, column + 1)] == cell(i + 1, j + 1)
  {
    AllInBounds(rows + 1, width);
    AllInBounds(rows, columns);
  }

  lemma PushedOne<T>(all: seq<T>, done: seq<T>, next: T, rest: seq<T>)
    requires all == done + ([next] + rest)
    ensures all == (done + [next]) + rest
  {}

  /** What the cursor walk has collected, then the rest of the walk, is the whole walk. */
  ghost predicate Onward(w: Weight, cell: Weight, all: seq<Pair>, pairs: seq<Pair>, i: nat, oldEnd: nat, j: nat, newEnd: nat)
    requires i <= oldEnd && j <= newEnd
  {
    all == pairs + Walk(w, cell, i, oldEnd, j, newEnd)
  }

  lemma OnwardPair(w: Weight, cell: Weight, all: seq<Pair>, pairs: seq<Pair>, i: nat, oldEnd: nat, j: nat, newEnd: nat)
    requires i < oldEnd && j < newEnd && Onward(w, cell, all, pairs, i, oldEnd, j, newEnd) && StepAt(w, cell, i, j).Match?
    ensures Onward(w, cell, all, pairs + [(i, j)], i + 1, oldEnd, j + 1, newEnd)
  {
    PushedOne(all, pairs, (i, j), Walk(w, cell, i + 1, oldEnd, j + 1, newEnd));
  }

  lemma OnwardSkip(w: Weight, cell: Weight, all: seq<Pair>, pairs: seq<Pair>, i: nat, oldEnd: nat, j: nat, newEnd: nat)
    requires i < oldEnd && j < newEnd && Onward(w, cell, all, pairs, i, oldEnd, j, newEnd)
    ensures StepAt(w, cell, i, j).SkipOld? ==> Onward(w, cell, all, pairs, i + 1, oldEnd, j, newEnd)
    ensures StepAt(w, cell, i, j).SkipNew? ==> Onward(w, cell, all, pairs, i, oldEnd, j + 1, newEnd)
  {
  }

  lemma OnwardEnds(w: Weight, cell: Weight, all: seq<Pair>, pairs: seq<Pair>, i: nat, oldEnd: nat, j: nat, newEnd: nat)
    requires i <= oldEnd && j <= newEnd && (i == oldEnd || j == newEnd) && Onward(w, cell, all, pairs, i, oldEnd, j, newEnd)
    ensures pairs == all
  {
  }

  lemma OnwardStarts(w: Weight, cell: Weight, i: nat, oldEnd: nat, j: nat, newEnd: nat)
    requires i <= oldEnd && j <= newEnd
    ensures Onward(w, cell, Walk(w, cell, i, oldEnd, j, newEnd), [], i, oldEnd, j, newEnd)
  {
  }

  /** The five cells around one position. */
  ghost predicate HeldHere(w: Weight, cell: Weight, best: seq<nat>, weights: seq<nat>, row: nat, column: nat,
                           oldStart: nat, newStart: nat, width: nat) {
    var i, j := oldStart + row, newStart + column;
    && width > 0 && At(width, row + 1, column + 1) < |best| && At(width, row + 1, column) < |best|
    && At(width, row, column + 1) < |best| && At(width, row, column) < |best| && At(width - 1, row, column) < |weights|
    && weights[At(width - 1, row, column)] == ToUint32(w(i, j)) && best[At(width, row, column)] == cell(i, j)
    && best[At(width, row + 1, column)] == cell(i + 1, j) && best[At(width, row, column + 1)] == cell(i, j + 1)
    && best[At(width, row + 1, column + 1)] == cell(i + 1, j + 1)
  }

  ghost predicate HeldEverywhere(w: Weight, cell: Weight, best: seq<nat>, weights: seq<nat>,
                                 oldStart: nat, rows: nat, newStart: nat, columns: nat, width: nat) {
    forall row: nat, column: nat :: row < rows && column < columns ==>
      HeldHere(w, cell, best, weights, row, column, oldStart, newStart, width)
  }

  lemma AllHeld(w: Weight, cell: Weight, best: seq<nat>, weights: seq<nat>,
                oldStart: nat, rows: nat, newStart: nat, columns: nat, width: nat)
    requires width == columns + 1
    requires |best| == RowStart(width, rows + 1) && |weights| == RowStart(columns, rows)
    requires Holds(w, cell, best, weights, oldStart, rows, newStart, columns, width)
    ensures HeldEverywhere(w, cell, best, weights, oldStart, rows, newStart, columns, width)
  {
    forall row: nat, column: nat | row < rows && column < columns
      ensures HeldHere(w, cell, best, weights, row, column, oldStart, newStart, width)
    {
      HeldAt(w, cell, best, weights, row, column, oldStart, rows, newStart, columns, width, oldStart + row, newStart + column);
    }
  }

  method ChooseStep(ghost w: Weight, ghost cell: Weight, best: array<nat>, weights: array<nat>, row: nat, column: nat,
                    ghost oldStart: nat, ghost newStart: nat, width: nat)
    returns (step: Step)
    requires HeldHere(w, cell, best[..], weights[..], row, column, oldStart, newStart, width)
    ensures step == StepAt(w, cell, oldStart + row, newStart + column)
  {
    var pair := weights[At(width - 1, row, column)];
    step :=
      if pair > 0 && best[At(width, row, column)] == pair + best[At(width, row + 1, column + 1)] then Match
      else if best[At(width, row + 1, column)] >= best[At(width, row, column + 1)] then SkipOld
      else SkipNew;
  }

  /** The cursor walk over the filled tables. */
  method WalkTable(ghost w: Weight, ghost cell: Weight, best: array<nat>, weights: array<nat>,
                   oldStart: nat, rows: nat, newStart: nat, columns: nat, width: nat)
    returns (pairs: seq<Pair>)
    requires HeldEverywhere(w, cell, best[..], weights[..], oldStart, rows, newStart, columns, width)
    ensures pairs == Walk(w, cell, oldStart, oldStart + rows, newStart, newStart + columns)
  {
    pairs := [];
    var row, column := 0, 0;
    ghost var i, j, oldEnd, newEnd := oldStart, newStart, oldStart + rows, newStart + columns;
    ghost var all := Walk(w, cell, i, oldEnd, j, newEnd);
    OnwardStarts(w, cell, i, oldEnd, j, newEnd);
    while row < rows && column < columns
      invariant row <= rows && column <= columns && i == oldStart + row && j == newStart + column
      invariant Onward(w, cell, all, pairs, i, oldEnd, j, newEnd)
      decreases rows - row + columns - column
    {
      assert HeldHere(w, cell, best[..], weights[..], row, column, oldStart, newStart, width);
      var step := ChooseStep(w, cell, best, weights, row, column, oldStart, newStart, width);
      if step.Match? {
        OnwardPair(w, cell, all, pairs, i, oldEnd, j, newEnd);
        pairs := pairs + [(oldStart + row, newStart + column)];
        row, column, i, j := row + 1, column + 1, i + 1, j + 1;
      } else {
        OnwardSkip(w, cell, all, pairs, i, oldEnd, j, newEnd);
        if step.SkipOld? { row, i := row + 1, i + 1; } else { column, j := column + 1, j + 1; }
      }
    }
    OnwardEnds(w, cell, all, pairs, i, oldEnd, j, newEnd);
  }

  /**
   * A heaviest ordered matching, or nothing when the table would be over the limit. Whatever wraps, the pairs are ordered, in range and of positive weight, and ties
   * follow `Traced`; they are a heaviest matching whenever every total fits a cell.
   */
  method WeightedOrderedMatches(w: Weight, oldStart: nat, oldEnd: nat, newStart: nat, newEnd: nat,
                                maxTableCells: int)
    returns (matches: Option<seq<Pair>>)
    requires oldStart <= oldEnd && newStart <= newEnd
    ensures matches.None? <==>
            && oldStart < oldEnd && newStart < newEnd
            && (oldEnd - oldStart + 1) * (newEnd - newStart + 1) > maxTableCells
    ensures matches.Some? ==>
              && matches.value == Traced(w, oldStart, oldEnd, newStart, newEnd)
              && Matching(w, matches.value, oldStart, oldEnd, newStart, newEnd)
    ensures matches.Some? && FitsTable(w, oldStart, oldEnd, newStart, newEnd) ==>
              Heaviest(w, matches.value, oldStart, oldEnd, newStart, newEnd)
  {
    TracedIsHeaviestIfFits(w, oldStart, oldEnd, newStart, newEnd);
    var rows := oldEnd - oldStart;
    var columns := newEnd - newStart;
    if rows == 0 || columns == 0 { return Some([]); }
    if (rows + 1) * (columns + 1) > maxTableCells { return None; }
    var width := columns + 1;
    var best, weights := FillTable(w, oldStart, rows, newStart, columns, width);
    AllHeld(w, Cells(w, oldEnd, newEnd), best[..], weights[..], oldStart, rows, newStart, columns, width);
    var pairs := WalkTable(w, Cells(w, oldEnd, newEnd), best, weights, oldStart, rows, newStart, columns, width);
    matches := Some(pairs);
  }

  lemma TracedIsHeaviestIfFits(w: Weight, oldStart: nat, oldEnd: nat, newStart: nat, newEnd: nat)
    requires oldStart <= oldEnd && newStart <= newEnd
    ensures Matching(w, Traced(w, oldStart, oldEnd, newStart, newEnd), oldStart, oldEnd, newStart, newEnd)
    ensures FitsTable(w, oldStart, oldEnd, newStart, newEnd) ==>
              Heaviest(w, Traced(w, oldStart, oldEnd, newStart, newEnd), oldStart, oldEnd, newStart, newEnd)
  {
    WalkIsMatching(w, Cells(w, oldEnd, newEnd), oldStart, oldEnd, newStart, newEnd);
    if FitsTable(w, oldStart, oldEnd, newStart, newEnd) {
      TracedIsHeaviest(w, oldStart, oldEnd, newStart, newEnd);
    }
  }
}
