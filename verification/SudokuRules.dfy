/**
  The rules of Sudoku and their translation into an exact cover problem.

  A cell is a number from 0 to 80.  It lies in three units, its row (kind 1), its
  column (kind 2) and its box (kind 3), each numbered from 0 to 8.  The translation
  has one column per empty cell and one per unit and digit that no clue supplies.
*/
module SudokuRules {
  import opened DancingLinks

  const CELLS := 81

  ghost predicate Board(p: seq<int>) {
    |p| == CELLS && forall i :: 0 <= i < CELLS ==> 0 <= p[i] <= 9
  }

  /** The number of the unit of kind `t` in which cell `i` lies. */
  function Coord(t: int, i: int): int {
    if t == 1 then i / 9 else if t == 2 then i % 9 else i / 9 / 3 * 3 + i % 9 / 3
  }

  /** The k-th cell of unit `u` of kind `t`. */
  function UnitCell(t: int, u: int, k: int): int {
    if t == 1 then 9 * u + k
    else if t == 2 then 9 * k + u
    else 9 * (u / 3 * 3 + k / 3) + u % 3 * 3 + k % 3
  }

  lemma Nines(r: int, c: int)
    requires 0 <= c < 9
    ensures (9 * r + c) / 9 == r && (9 * r + c) % 9 == c
  {
  }

  lemma Threes(r: int, c: int)
    requires 0 <= c < 3
    ensures (r * 3 + c) / 3 == r && (r * 3 + c) % 3 == c
  {
  }

  lemma UnitCells(t: int, u: int, k: int)
    requires 1 <= t <= 3 && 0 <= u < 9 && 0 <= k < 9
    ensures 0 <= UnitCell(t, u, k) < CELLS && Coord(t, UnitCell(t, u, k)) == u
  {
    if t == 1 {
      Nines(u, k);
    } else if t == 2 {
      Nines(k, u);
    } else {
      BoxCells(u / 3, u % 3, k / 3, k % 3);
    }
  }

  lemma BoxCells(a: int, b: int, c: int, d: int)
    requires 0 <= a < 3 && 0 <= b < 3 && 0 <= c < 3 && 0 <= d < 3
    ensures var i := 9 * (a * 3 + c) + b * 3 + d;
            0 <= i < CELLS && i / 9 == a * 3 + c && i % 9 == b * 3 + d && i / 9 / 3 == a && i % 9 / 3 == b
  {
    Nines(a * 3 + c, b * 3 + d);
    Threes(a, c);
    Threes(b, d);
  }

  /** Every cell of a unit is listed in it. */
  lemma UnitIndex(t: int, i: int) returns (k: int)
    requires 1 <= t <= 3 && 0 <= i < CELLS
    ensures 0 <= Coord(t, i) < 9 && 0 <= k < 9 && UnitCell(t, Coord(t, i), k) == i
  {
    if t == 1 {
      k := i % 9;
    } else if t == 2 {
      k := i / 9;
    } else {
      var r, c := i / 9, i % 9;
      k := r % 3 * 3 + c % 3;
      Threes(r % 3, c % 3);
      Threes(r / 3, c / 3);
    }
  }

  // ---------------------------------------------------------------- rules

  ghost predicate HasDigit(g: seq<int>, t: int, u: int, v: int)
    requires |g| == CELLS
  {
    exists i :: 0 <= i < CELLS && Coord(t, i) == u && g[i] == v
  }

  /** Each digit is in each row, column and box exactly once. */
  ghost predicate Solved(g: seq<int>) {
    && Board(g)
    && (forall t, u, v :: 1 <= t <= 3 && 0 <= u < 9 && 1 <= v <= 9 ==> HasDigit(g, t, u, v))
    && (forall t, i, j :: 1 <= t <= 3 && 0 <= i < j < CELLS && Coord(t, i) == Coord(t, j) ==> g[i] != g[j])
  }

  ghost predicate Extends(p: seq<int>, g: seq<int>)
    requires |p| == |g| == CELLS
  {
    forall i :: 0 <= i < CELLS && p[i] != 0 ==> g[i] == p[i]
  }

  // ---------------------------------------------------------- translation

  /** `get_row_col`, `get_col_col` and `get_box_col`. */
  function Name(t: int, u: int, v: int): int {
    100 * t + u * 10 + v
  }

  /** The names under which the constructor appends a column for puzzle `p`. */
  ghost predicate IsColumn(p: seq<int>, n: int)
    requires |p| == CELLS
  {
    if n < 100 then 0 <= n < CELLS && p[n] == 0
    else n < 400 && n % 100 / 10 < 9 && 1 <= n % 10 && !HasDigit(p, n / 100, n % 100 / 10, n % 10)
  }

  /** The constructor adds a matrix row for digit `v` in cell `i`. */
  ghost predicate Candidate(p: seq<int>, i: int, v: int)
    requires |p| == CELLS
  {
    && 0 <= i < CELLS && p[i] == 0 && 1 <= v <= 9
    && (forall t :: 1 <= t <= 3 ==> !HasDigit(p, t, Coord(t, i), v))
  }

  ghost function RowNames(i: int, v: int): set<int> {
    {i, Name(1, Coord(1, i), v), Name(2, Coord(2, i), v), Name(3, Coord(3, i), v)}
  }

  /** A choice of candidates that meets every column exactly once. */
  ghost predicate NameCover(p: seq<int>, ch: set<(int, int)>)
    requires |p| == CELLS
  {
    && (forall a :: a in ch ==> Candidate(p, a.0, a.1))
    && (forall n :: IsColumn(p, n) ==> exists a :: a in ch && n in RowNames(a.0, a.1))
    && (forall a, b :: a in ch && b in ch && a != b ==> RowNames(a.0, a.1) !! RowNames(b.0, b.1))
  }

  /** `g` is `p` with the chosen digits written in. */
  ghost predicate Shows(p: seq<int>, ch: set<(int, int)>, g: seq<int>)
    requires |p| == CELLS
  {
    && |g| == CELLS
    && (forall a :: a in ch ==> 0 <= a.0 < CELLS && g[a.0] == a.1)
    && (forall i :: 0 <= i < CELLS && p[i] != 0 ==> g[i] == p[i])
  }

  lemma NameParts(t: int, u: int, v: int)
    requires 1 <= t <= 3 && 0 <= u < 9 && 1 <= v <= 9
    ensures var n := Name(t, u, v); 100 <= n < 400 && n / 100 == t && n % 100 / 10 == u && n % 10 == v
  {
  }

  lemma NameOf(n: int)
    requires 100 <= n < 400
    ensures Name(n / 100, n % 100 / 10, n % 10) == n && 1 <= n / 100 <= 3
  {
    assert n == 100 * (n / 100) + n % 100;
    assert n % 100 == 10 * (n % 100 / 10) + n % 100 % 10;
  }

  lemma NameInRow(t: int, u: int, v: int, i: int, w: int)
    requires 1 <= t <= 3 && 0 <= u < 9 && 1 <= v <= 9 && 0 <= i < CELLS && 1 <= w <= 9
    ensures Name(t, u, v) in RowNames(i, w) <==> u == Coord(t, i) && v == w
  {
    var _ := UnitIndex(1, i);
    var _ := UnitIndex(2, i);
    var _ := UnitIndex(3, i);
    NameParts(t, u, v);
    NameParts(1, Coord(1, i), w);
    NameParts(2, Coord(2, i), w);
    NameParts(3, Coord(3, i), w);
    hide Name, Coord, UnitCell;
  }

  lemma {:induction false} CellInRow(n: int, i: int, w: int)
    requires 0 <= n < CELLS && 0 <= i < CELLS && 1 <= w <= 9
    ensures n in RowNames(i, w) <==> n == i
  {
    var _ := UnitIndex(1, i);
    var _ := UnitIndex(2, i);
    var _ := UnitIndex(3, i);
  }

  // ------------------------------------------------------------ soundness

  lemma {:induction false} FewerValues(a: seq<int>)
    ensures |set x | x in a| <= |a|
    ensures |set x | x in a| == |a| ==> Distinct(a)
  {
    if a != [] {
      var p, z := a[..|a| - 1], a[|a| - 1];
      FewerValues(p);
      var sp, sa := set x | x in p, set x | x in a;
      assert a == p + [z];
      if z in p {
        assert sa == sp;
      } else {
        assert sa == sp + {z};
      }
    }
  }

  /** Nine cells that show all nine digits show each of them once. */
  lemma {:induction false} NineDigits(a: seq<int>)
    requires |a| == 9 && forall v :: 1 <= v <= 9 ==> v in a
    ensures Distinct(a) && forall v :: v in a ==> 1 <= v <= 9
  {
    var s := set x | x in a;
    var t := Digits();
    FewerValues(a);
    assert t <= s;
    assert s == t + (s - t);
    assert |s| == |t| + |s - t|;
    assert s - t == {};
    forall v | v in a
      ensures 1 <= v <= 9
    {
      assert v in s;
    }
  }

  ghost function Digits(): (s: set<int>)
    ensures |s| == 9 && forall v :: v in s <==> 1 <= v <= 9
  {
    {1, 2, 3, 4, 5, 6, 7, 8, 9}
  }

  lemma {:induction false} FullUnit(g: seq<int>, t: int, u: int)
    requires |g| == CELLS && 1 <= t <= 3 && 0 <= u < 9
    requires forall v :: 1 <= v <= 9 ==> HasDigit(g, t, u, v)
    ensures forall i :: 0 <= i < CELLS && Coord(t, i) == u ==> 1 <= g[i] <= 9
    ensures forall i, j :: 0 <= i < j < CELLS && Coord(t, i) == u && Coord(t, j) == u ==> g[i] != g[j]
  {
    forall k | 0 <= k < 9
      ensures 0 <= UnitCell(t, u, k) < CELLS && Coord(t, UnitCell(t, u, k)) == u
    {
      UnitCells(t, u, k);
    }
    var a := seq(9, k requires 0 <= k < 9 => g[UnitCell(t, u, k)]);
    forall v | 1 <= v <= 9
      ensures v in a
    {
      assert HasDigit(g, t, u, v);
      var i :| 0 <= i < CELLS && Coord(t, i) == u && g[i] == v;
      var k := UnitIndex(t, i);
      assert a[k] == v;
    }
    NineDigits(a);
    forall i | 0 <= i < CELLS && Coord(t, i) == u
      ensures 1 <= g[i] <= 9
    {
      var k := UnitIndex(t, i);
      assert a[k] == g[i] && a[k] in a;
    }
    forall i, j | 0 <= i < j < CELLS && Coord(t, i) == u && Coord(t, j) == u
      ensures g[i] != g[j]
    {
      var k := UnitIndex(t, i);
      var l := UnitIndex(t, j);
      assert a[k] == g[i] && a[l] == g[j] && k != l;
    }
  }

  /**
    Whatever the clues, an exact cover of the columns gives a solution: every unit then
    shows all nine digits, so none can be there twice.  In particular a puzzle whose
    clues repeat a digit in a unit has no exact cover.
  */
  lemma {:induction false} CoverIsSolution(p: seq<int>, ch: set<(int, int)>, g: seq<int>)
    requires Board(p) && NameCover(p, ch) && Shows(p, ch, g)
    ensures Solved(g) && Extends(p, g)
  {
    forall t, u, v | 1 <= t <= 3 && 0 <= u < 9 && 1 <= v <= 9
      ensures HasDigit(g, t, u, v)
    {
      CoveredDigit(p, ch, g, t, u, v);
    }
    forall i | 0 <= i < CELLS
      ensures 1 <= g[i] <= 9
    {
      var _ := UnitIndex(1, i);
      FullUnit(g, 1, Coord(1, i));
    }
    forall t, i, j | 1 <= t <= 3 && 0 <= i < j < CELLS && Coord(t, i) == Coord(t, j)
      ensures g[i] != g[j]
    {
      var _ := UnitIndex(t, i);
      FullUnit(g, t, Coord(t, i));
    }
  }

  lemma {:induction false} CoveredDigit(p: seq<int>, ch: set<(int, int)>, g: seq<int>, t: int, u: int, v: int)
    requires Board(p) && NameCover(p, ch) && Shows(p, ch, g)
    requires 1 <= t <= 3 && 0 <= u < 9 && 1 <= v <= 9
    ensures HasDigit(g, t, u, v)
  {
    if HasDigit(p, t, u, v) {
      var i :| 0 <= i < CELLS && Coord(t, i) == u && p[i] == v;
      assert g[i] == v;
    } else {
      NameParts(t, u, v);
      assert IsColumn(p, Name(t, u, v));
      var a :| a in ch && Name(t, u, v) in RowNames(a.0, a.1);
      assert Candidate(p, a.0, a.1);
      NameInRow(t, u, v, a.0, a.1);
      assert g[a.0] == v;
    }
  }

  // --------------------------------------------------------- completeness

  ghost function Choices(p: seq<int>, g: seq<int>): set<(int, int)>
    requires |p| == |g| == CELLS
  {
    set i | 0 <= i < CELLS && p[i] == 0 :: (i, g[i])
  }

  /** Every solution of the puzzle is an exact cover. */
  lemma {:induction false} SolutionIsCover(p: seq<int>, g: seq<int>)
    requires Board(p) && Solved(g) && Extends(p, g)
    ensures NameCover(p, Choices(p, g))
  {
    var ch := Choices(p, g);
    forall a | a in ch
      ensures Candidate(p, a.0, a.1)
    {
      SolutionCandidate(p, g, a.0);
    }
    forall n | IsColumn(p, n)
      ensures exists a :: a in ch && n in RowNames(a.0, a.1)
    {
      SolutionMeets(p, g, n);
    }
    forall a, b | a in ch && b in ch && a != b
      ensures RowNames(a.0, a.1) !! RowNames(b.0, b.1)
    {
      SolutionDisjoint(p, g, a.0, b.0);
    }
  }

  lemma {:induction false} SolutionDigit(g: seq<int>, i: int)
    requires Solved(g) && 0 <= i < CELLS
    ensures 1 <= g[i] <= 9
  {
    var k := UnitIndex(1, i);
    FullUnit(g, 1, Coord(1, i));
  }

  lemma {:induction false} SolutionCandidate(p: seq<int>, g: seq<int>, i: int)
    requires Board(p) && Solved(g) && Extends(p, g) && 0 <= i < CELLS && p[i] == 0
    ensures Candidate(p, i, g[i])
  {
    SolutionDigit(g, i);
    forall t | 1 <= t <= 3
      ensures !HasDigit(p, t, Coord(t, i), g[i])
    {
      forall j | 0 <= j < CELLS && Coord(t, j) == Coord(t, i)
        ensures p[j] != g[i]
      {
        assert p[j] != 0 ==> g[j] == p[j];
      }
    }
  }

  lemma {:induction false} SolutionMeets(p: seq<int>, g: seq<int>, n: int)
    requires Board(p) && Solved(g) && Extends(p, g) && IsColumn(p, n)
    ensures exists a :: a in Choices(p, g) && n in RowNames(a.0, a.1)
  {
    if n < 100 {
      assert (n, g[n]) in Choices(p, g) && n in RowNames(n, g[n]);
    } else {
      NameOf(n);
      SolutionMeetsUnit(p, g, n / 100, n % 100 / 10, n % 10);
    }
  }

  lemma {:induction false} SolutionMeetsUnit(p: seq<int>, g: seq<int>, t: int, u: int, v: int)
    requires Board(p) && Solved(g) && Extends(p, g)
    requires 1 <= t <= 3 && 0 <= u < 9 && 1 <= v <= 9 && !HasDigit(p, t, u, v)
    ensures exists a :: a in Choices(p, g) && Name(t, u, v) in RowNames(a.0, a.1)
  {
    assert HasDigit(g, t, u, v);
    var i :| 0 <= i < CELLS && Coord(t, i) == u && g[i] == v;
    assert p[i] == 0;
    NameInRow(t, u, v, i, v);
    var a := (i, v);
    assert a in Choices(p, g) && Name(t, u, v) in RowNames(a.0, a.1);
  }

  lemma {:induction false} SolutionDisjoint(p: seq<int>, g: seq<int>, i: int, j: int)
    requires Board(p) && Solved(g) && 0 <= i < CELLS && 0 <= j < CELLS && i != j
    ensures RowNames(i, g[i]) !! RowNames(j, g[j])
  {
    SolutionDigit(g, i);
    SolutionDigit(g, j);
    CellInRow(i, j, g[j]);
    SolutionNameOnce(g, 1, i, j);
    SolutionNameOnce(g, 2, i, j);
    SolutionNameOnce(g, 3, i, j);
  }

  lemma SolutionNameOnce(g: seq<int>, t: int, i: int, j: int)
    requires Solved(g) && 1 <= t <= 3 && 0 <= i < CELLS && 0 <= j < CELLS && i != j
    requires 1 <= g[i] <= 9 && 1 <= g[j] <= 9
    ensures Name(t, Coord(t, i), g[i]) !in RowNames(j, g[j])
  {
    var _ := UnitIndex(t, i);
    NameInRow(t, Coord(t, i), g[i], j, g[j]);
    assert Coord(t, i) == Coord(t, j) ==> g[i] != g[j];
  }
}
