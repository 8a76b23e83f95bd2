/** The backtracking Sudoku solver (sudoku_basic.h). */
module Sudoku {

  const DIM := 9
  const CELLS := 81

  /** A board read row by row, left to right. */
  type Grid = g: seq<int> | |g| == CELLS witness seq(CELLS, _ => 0)

  type Index = i: int | 0 <= i < CELLS

  function Row(i: Index): (r: int)
    ensures 0 <= r < DIM
  {
    i / DIM
  }

  function Col(i: Index): (c: int)
    ensures 0 <= c < DIM
  {
    i % DIM
  }

  /** Two different cells that share a row, a column or a 3 by 3 box. */
  predicate Peers(i: Index, j: Index) {
    i != j && (Row(i) == Row(j) || Col(i) == Col(j) || (Row(i) / 3 == Row(j) / 3 && Col(i) / 3 == Col(j) / 3))
  }

  // ----- what a solution is

  /** The givens do not contradict each other. */
  ghost predicate Consistent(g: Grid) {
    forall i: Index, j: Index :: Peers(i, j) && g[i] != 0 ==> g[i] != g[j]
  }

  ghost predicate Complete(g: Grid) {
    forall i: Index :: 1 <= g[i] <= 9
  }

  /** h keeps every given of g. */
  ghost predicate Extends(g: Grid, h: Grid) {
    forall i: Index :: g[i] != 0 ==> h[i] == g[i]
  }

  /** A valid completion in the sense of the puzzle. */
  ghost predicate Completion(g: Grid, h: Grid) {
    Extends(g, h) && Complete(h) && Consistent(h)
  }

  /** h fills the empty cells of g with digits that clash with no cell; the givens may be anything. */
  ghost predicate Fills(g: Grid, h: Grid) {
    && Extends(g, h)
    && (forall i: Index :: g[i] == 0 ==> 1 <= h[i] <= 9)
    && (forall i: Index, j: Index :: g[i] == 0 && Peers(i, j) ==> h[i] != h[j])
  }

  ghost predicate Digits(g: Grid) {
    forall i: Index :: 0 <= g[i] <= 9
  }

  /** For digits and consistent givens, filling is completing; without consistent givens nothing completes. */
  lemma CompletionIffFills(g: Grid, h: Grid)
    ensures Completion(g, h) <==> Fills(g, h) && Digits(g) && Consistent(g)
  {
    if Completion(g, h) {
      forall i: Index, j: Index | Peers(i, j) && g[i] != 0 ensures g[i] != g[j] {
        assert h[i] == g[i] && h[i] != h[j];
      }
      assert forall i: Index :: g[i] != 0 ==> h[i] == g[i];
    }
    if Fills(g, h) && Digits(g) && Consistent(g) {
      forall i: Index, j: Index | Peers(i, j) ensures h[i] != h[j] {
        if g[i] != 0 && g[j] != 0 {
          assert h[i] == g[i] && h[j] == g[j];
        } else if g[i] != 0 {
          assert Peers(j, i);
        }
      }
    }
  }

  /** A full board of clashing givens: the solver answers true, yet no completion exists. */
  lemma ClashingGivens()
    ensures var g: Grid := seq(CELLS, _ => 1);
            FirstFill(g, g) && !exists h: Grid :: Completion(g, h)
  {
    var g: Grid := seq(CELLS, _ => 1);
    FullIsItsOwnFill(g);
    assert Peers(0, 1) && g[0] == g[1];
    forall h: Grid ensures !Completion(g, h) {
      CompletionIffFills(g, h);
    }
  }

  /** Row-major order of grids. */
  ghost predicate Less(a: Grid, b: Grid) {
    exists k: Index :: a[k] < b[k] && forall i: Index :: i < k ==> a[i] == b[i]
  }

  /** The solution that the solver must find: the least grid that fills g. */
  ghost predicate FirstFill(g: Grid, h: Grid) {
    Fills(g, h) && forall x: Grid :: Fills(g, x) ==> x == h || Less(h, x)
  }

  lemma LessIsAsymmetric(a: Grid, b: Grid)
    requires Less(a, b)
    ensures !Less(b, a)
  {
    var k: Index :| a[k] < b[k] && forall i: Index :: i < k ==> a[i] == b[i];
    forall m: Index | b[m] < a[m] ensures exists i: Index :: i < m && a[i] != b[i] {
      assert k < m && a[k] != b[k];
    }
  }

  lemma FirstFillIsUnique(g: Grid, a: Grid, b: Grid)
    requires FirstFill(g, a) && FirstFill(g, b)
    ensures a == b
  {
    if Less(a, b) {
      LessIsAsymmetric(a, b);
    }
  }

  // ----- the search step

  /** No cell of the row, the column or the box of p holds v. */
  ghost predicate Safe(g: Grid, p: Index, v: int) {
    g[p] != v && forall j: Index :: Peers(p, j) ==> g[j] != v
  }

  ghost predicate FirstEmpty(g: Grid, p: Index) {
    g[p] == 0 && forall i: Index :: i < p ==> g[i] != 0
  }

  function Put(g: Grid, p: Index, v: int): Grid {
    g[p := v]
  }

  /** The fills of g with v at the empty cell p are those of g with v put there, if v is safe, and else none. */
  lemma FillsByValue(g: Grid, p: Index, v: int, h: Grid)
    requires g[p] == 0 && 1 <= v <= 9
    ensures Fills(g, h) && h[p] == v <==> Safe(g, p, v) && Fills(Put(g, p, v), h)
  {
    var g' := Put(g, p, v);
    if Fills(g, h) && h[p] == v {
      forall j: Index | Peers(p, j) ensures g[j] != v {
        assert h[p] != h[j];
        assert g[j] != 0 ==> h[j] == g[j];
      }
      assert Extends(g', h);
      forall i: Index, j: Index | g'[i] == 0 && Peers(i, j) ensures h[i] != h[j] {
        assert g[i] == 0;
      }
      assert forall i: Index :: g'[i] == 0 ==> g[i] == 0;
    }
    if Safe(g, p, v) && Fills(g', h) {
      assert h[p] == v by {
        assert g'[p] == v;
      }
      assert forall i: Index :: g[i] != 0 ==> i != p && g'[i] == g[i];
      assert Extends(g, h);
      forall i: Index, j: Index | g[i] == 0 && Peers(i, j) ensures h[i] != h[j] {
        if i == p {
          if g[j] != 0 {
            assert h[j] == g[j];
          } else {
            assert Peers(j, p) && g'[j] == 0;
          }
        } else {
          assert g'[i] == 0;
        }
      }
      assert forall i: Index :: g[i] == 0 && i != p ==> g'[i] == 0;
    }
  }

  /** No fill has a value below v at p. */
  ghost predicate Exhausted(g: Grid, p: Index, v: int) {
    forall h: Grid :: Fills(g, h) ==> h[p] >= v
  }

  lemma ExhaustedStep(g: Grid, p: Index, v: int)
    requires g[p] == 0 && 1 <= v <= 9 && Exhausted(g, p, v)
    requires Safe(g, p, v) ==> !exists h: Grid :: Fills(Put(g, p, v), h)
    ensures Exhausted(g, p, v + 1)
  {
    forall h: Grid | Fills(g, h) ensures h[p] >= v + 1 {
      FillsByValue(g, p, v, h);
    }
  }

  /** The first fill with v at p, v the least value that works there, is the first fill. */
  lemma FirstFillStep(g: Grid, p: Index, v: int, h: Grid)
    requires FirstEmpty(g, p) && 1 <= v <= 9 && Exhausted(g, p, v)
    requires Safe(g, p, v) && FirstFill(Put(g, p, v), h)
    ensures FirstFill(g, h)
  {
    FillsByValue(g, p, v, h);
    forall x: Grid | Fills(g, x) ensures x == h || Less(h, x) {
      FillsByValue(g, p, v, x);
      if x[p] != v {
        assert forall i: Index :: i < p ==> g[i] != 0 && h[i] == x[i];
        assert h[p] < x[p];
      }
    }
  }

  lemma FullIsItsOwnFill(g: Grid)
    requires forall i: Index :: g[i] != 0
    ensures FirstFill(g, g)
  {
    forall x: Grid | Fills(g, x) ensures x == g {
      assert forall i: Index :: x[i] == g[i];
    }
  }

  /** How many cells are empty. */
  ghost function Empty(g: seq<int>): nat {
    if g == [] then 0 else Empty(g[..|g| - 1]) + if g[|g| - 1] == 0 then 1 else 0
  }

  lemma {:induction false} EmptyDrops(g: seq<int>, p: nat, v: int)
    requires p < |g| && g[p] == 0 && v != 0
    ensures Empty(g[p := v]) + 1 == Empty(g)
    decreases |g|
  {
    var n := |g| - 1;
    if p < n {
      EmptyDrops(g[..n], p, v);
      assert g[p := v][..n] == g[..n][p := v];
    } else {
      assert g[p := v][..n] == g[..n];
    }
  }

  // ----- the program: a 9 by 9 board searched in place

  ghost predicate IsBoard(board: array2<int>) {
    board.Length0 == DIM && board.Length1 == DIM
  }

  ghost function Flat(board: array2<int>): (g: Grid)
    requires IsBoard(board)
    reads board
    ensures forall i: Index :: g[i] == board[Row(i), Col(i)]
  {
    seq(CELLS, i requires 0 <= i < CELLS reads board => board[Row(i), Col(i)])
  }

  function At(r: int, c: int): (i: Index)
    requires 0 <= r < DIM && 0 <= c < DIM
    ensures Row(i) == r && Col(i) == c
  {
    9 * r + c
  }

  lemma AtRowCol(i: Index)
    ensures At(Row(i), Col(i)) == i
  {
  }

  /** is_safe: scans the row, the column and the box. */
  method IsSafe(board: array2<int>, r: int, c: int, v: int) returns (ok: bool)
    requires IsBoard(board) && 0 <= r < DIM && 0 <= c < DIM
    ensures ok <==> Safe(Flat(board), At(r, c), v)
  {
    ghost var g := Flat(board);
    for col := 0 to DIM
      invariant forall k :: 0 <= k < col ==> board[r, k] != v
    {
      if board[r, col] == v {
        assert g[At(r, col)] == v;
        return false;
      }
    }
    for row := 0 to DIM
      invariant forall k :: 0 <= k < row ==> board[k, c] != v
    {
      if board[row, c] == v {
        assert g[At(row, c)] == v;
        return false;
      }
    }
    var boxR, boxC := r - r % 3, c - c % 3;
    for row := 0 to 3
      invariant forall k, m :: boxR <= k < boxR + row && boxC <= m < boxC + 3 ==> board[k, m] != v
    {
      var y := row + boxR;
      for col := 0 to 3
        invariant forall k, m :: boxR <= k < boxR + row && boxC <= m < boxC + 3 ==> board[k, m] != v
        invariant forall m :: boxC <= m < boxC + col ==> board[y, m] != v
      {
        if board[y, col + boxC] == v {
          assert g[At(y, col + boxC)] == v;
          return false;
        }
      }
    }
    forall j: Index | Peers(At(r, c), j) ensures g[j] != v {
      if Row(j) != r && Col(j) != c {
        assert boxR <= Row(j) < boxR + 3 && boxC <= Col(j) < boxC + 3;
      }
    }
    return true;
  }

  /** get_unassigned_location: the first empty cell in row-major order, or (9, 9). */
  method GetUnassignedLocation(board: array2<int>) returns (r: int, c: int)
    requires IsBoard(board)
    ensures (r == DIM && c == DIM && forall i: Index :: Flat(board)[i] != 0) ||
            (0 <= r < DIM && 0 <= c < DIM && FirstEmpty(Flat(board), At(r, c)))
  {
    ghost var g := Flat(board);
    for row := 0 to DIM
      invariant forall i: Index :: i < 9 * row ==> g[i] != 0
    {
      for col := 0 to DIM
        invariant forall i: Index :: i < 9 * row + col ==> g[i] != 0
      {
        assert g[At(row, col)] == board[row, col];
        if board[row, col] == 0 {
          return row, col;
        }
      }
    }
    return DIM, DIM;
  }

  lemma FlatPut(before: Grid, after: Grid, r: int, c: int, v: int)
    requires 0 <= r < DIM && 0 <= c < DIM
    requires forall i: Index :: after[i] == if Row(i) == r && Col(i) == c then v else before[i]
    ensures after == Put(before, At(r, c), v)
  {
    forall i: Index ensures after[i] == Put(before, At(r, c), v)[i] {
      AtRowCol(i);
    }
  }

  /** One assignment to a cell. */
  method Place(board: array2<int>, r: int, c: int, v: int)
    requires IsBoard(board) && 0 <= r < DIM && 0 <= c < DIM
    modifies board
    ensures Flat(board) == Put(old(Flat(board)), At(r, c), v)
  {
    ghost var g := Flat(board);
    board[r, c] := v;
    FlatPut(g, Flat(board), r, c, v);
  }

  lemma FirstFillCompletes(g: Grid, h: Grid)
    requires FirstFill(g, h)
    ensures Completion(g, h) <==> Digits(g) && Consistent(g)
  {
    CompletionIffFills(g, h);
  }

  /**
   * solve_sudoku_basic, for any board. True: the board is the first fill of what it was, and a valid
   * completion iff that held digits without clashes. False: it is what it was, and nothing fills it.
   */
  method SolveSudokuBasic(board: array2<int>) returns (found: bool)
    requires IsBoard(board)
    modifies board
    ensures found ==> FirstFill(old(Flat(board)), Flat(board))
    ensures found ==>
              (Completion(old(Flat(board)), Flat(board)) <==> Digits(old(Flat(board))) && Consistent(old(Flat(board))))
    ensures !found ==> Flat(board) == old(Flat(board)) && !exists h: Grid :: Fills(old(Flat(board)), h)
    decreases Empty(Flat(board))
  {
    hide FirstFill, Safe, Flat, Completion, Digits, Consistent;
    ghost var g := Flat(board);
    var row, col := GetUnassignedLocation(board);
    assert Flat(board) == g;
    if row == DIM && col == DIM {
      FullIsItsOwnFill(g);
      FirstFillCompletes(g, g);
      return true;
    }
    ghost var p := At(row, col);
    for v := 1 to 10
      invariant Flat(board) == g && Exhausted(g, p, v)
    {
      var ok := IsSafe(board, row, col, v);
      if ok {
        Place(board, row, col, v);
        EmptyDrops(g, p, v);
        var solved := SolveSudokuBasic(board);
        if solved {
          FirstFillStep(g, p, v, Flat(board));
          FirstFillCompletes(g, Flat(board));
          return true;
        }
        Place(board, row, col, 0);
        assert Flat(board) == g;
      }
      ExhaustedStep(g, p, v);
    }
    return false;
  }

  /** On a puzzle of digits with consistent givens: solved iff solvable, and then by the least completion. */
  method SolvePuzzle(board: array2<int>) returns (found: bool)
    requires IsBoard(board) && Digits(Flat(board)) && Consistent(Flat(board))
    modifies board
    ensures found <==> exists h: Grid :: Completion(old(Flat(board)), h)
    ensures found ==> Completion(old(Flat(board)), Flat(board))
    ensures found ==> forall h: Grid :: Completion(old(Flat(board)), h) ==> h == Flat(board) || Less(Flat(board), h)
    ensures !found ==> Flat(board) == old(Flat(board))
  {
    ghost var g := Flat(board);
    found := SolveSudokuBasic(board);
    forall h: Grid ensures Completion(g, h) <==> Fills(g, h) {
      CompletionIffFills(g, h);
    }
  }
}
