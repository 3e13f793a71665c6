/**
  `SudokuSolver` and `solveSudoku`: the solver on its array of nodes, from the 81 characters of a puzzle to
  the answer.  The class lays out the exact cover problem and searches it with dancing links.
*/
module SudokuSolver {

  import opened DancingLinks
  import opened SudokuRules
  import opened TorusBuilding

  /** Which cell and digit each matrix row stands for. */
  datatype Decoding = Decoding(cell: seq<int>, val: seq<int>)

  ghost predicate Decodes(m: Matrix, d: Decoding) {
    && Static(m) && |d.cell| == |d.val| == |m.rows|
    && (forall r :: 0 <= r < |m.rows| ==> 0 <= d.cell[r] < 81 && RowDecodes(m, r, d.cell[r], d.val[r]))
  }

  /** A node of row `r` is named by the row's cell, or by 100 or more and then ends in its digit. */
  ghost predicate RowDecodes(m: Matrix, r: int, cell: int, val: int)
    requires Static(m) && 0 <= r < |m.rows|
  {
    && (forall x :: x in m.rows[r] && x in m.name ==>
         0 <= m.name[x] && if m.name[x] < 100 then m.name[x] == cell else m.name[x] % 10 == val)
    && (exists x :: x in m.rows[r] && x in m.name && m.name[x] < 100)
    && (exists x :: x in m.rows[r] && x in m.name && m.name[x] >= 100)
  }

  /** The board with the cell of each chosen row set to its digit. */
  ghost function Fill(m: Matrix, d: Decoding, board: seq<int>, xs: seq<int>): (b: seq<int>)
    requires Decodes(m, d) && |board| == 81 && forall x :: x in xs ==> x in m.place
    ensures |b| == 81
  {
    if xs == [] then board else
      var x := xs[|xs| - 1];
      assert x in xs;
      Fill(m, d, board, xs[..|xs| - 1])[d.cell[RowOf(m, x)] := d.val[RowOf(m, x)]]
  }

  /** Walking the ring of row node `x` meets a name below 100 and one of at least 100. */
  lemma {:induction false} RingNames(m: Matrix, d: Decoding, st: Torus, x: int)
    requires WellFormed(m, st) && Decodes(m, d) && x in m.place
    ensures RowWalk(st.s, x, Mates(m, x))
    ensures var r := RowOf(m, x); NamesAlong(st.s, [x] + Mates(m, x), d.cell[r], d.val[r])
  {
    hide WellFormed, RowWalk, Mates, Static;
    FieldsOf(m, st);
    WalkMates(m, st, x, x);
    MatesAre(m, x);
    var r := RowOf(m, x);
    RowMembers(m, x);
    NamesAlongRow(m, st.s, r, [x] + Mates(m, x), d.cell[r], d.val[r]);
  }

  lemma RowMembers(m: Matrix, x: int)
    requires Static(m) && x in m.place
    ensures forall y :: y in [x] + Mates(m, x) <==> y in m.rows[RowOf(m, x)]
    ensures forall y :: y in [x] + Mates(m, x) ==> y in m.name && y in m.colOf
  {
    MatesAre(m, x);
    var row := m.rows[RowOf(m, x)];
    forall y | y in row
      ensures y in m.place && RowOf(m, y) == RowOf(m, x)
    {
      var k :| 0 <= k < |row| && row[k] == y;
    }
  }

  lemma {:induction false} NamesAlongRow(m: Matrix, s: Nodes, r: int, f: seq<int>, cell: int, val: int)
    requires Static(m) && Fields(m, s) && 0 <= r < |m.rows| && RowDecodes(m, r, cell, val)
    requires forall y :: y in f <==> y in m.rows[r]
    requires forall y :: y in f ==> y in m.name && y in m.colOf
    ensures NamesAlong(s, f, cell, val)
  {
    hide Static;
    var y :| y in m.rows[r] && y in m.name && m.name[y] < 100;
    var z :| z in m.rows[r] && z in m.name && m.name[z] >= 100;
    assert y in f && z in f;
    forall k | 0 <= k < |f|
      ensures 0 <= f[k] < |s| && 0 <= s[f[k]].name
      ensures if s[f[k]].name < 100 then s[f[k]].name == cell else s[f[k]].name % 10 == val
    {
      assert f[k] in f;
    }
  }

  lemma FieldsOf(m: Matrix, st: Torus)
    requires WellFormed(m, st)
    ensures Static(m) && Fields(m, st.s) && m.colOf.Keys == m.place.Keys == m.name.Keys
  {
  }

  ghost predicate NamesAlong(s: Nodes, f: seq<int>, cell: int, val: int) {
    && (forall k :: 0 <= k < |f| ==>
         && 0 <= f[k] < |s| && 0 <= s[f[k]].name
         && if s[f[k]].name < 100 then s[f[k]].name == cell else s[f[k]].name % 10 == val)
    && (exists k :: 0 <= k < |f| && s[f[k]].name < 100)
    && (exists k :: 0 <= k < |f| && s[f[k]].name >= 100)
  }

  const MAX_NODES := 1 + 81 * 4 + 9 * 9 * 9 * 4

  /** `columns_`: each live header is filed under exactly one name. */
  ghost predicate Filed(colAt: seq<int>, w: map<int, seq<int>>) {
    && |colAt| == 400
    && (forall n :: 0 <= n < 400 ==> colAt[n] == -1 || colAt[n] in w)
    && (forall c :: c in w ==> c != -1 && exists n :: 0 <= n < 400 && colAt[n] == c)
    && (forall n, k :: 0 <= n < k < 400 && colAt[n] != -1 ==> colAt[n] != colAt[k])
  }

  /** The headers of the four columns that digit `v` in cell `i` would cover. */
  ghost function ColsOf(colAt: seq<int>, i: int, v: int): seq<int>
    requires |colAt| == 400 && 0 <= i < 81 && 1 <= v <= 9
  {
    CoordBounds(i);
    [colAt[i], colAt[Name(1, Coord(1, i), v)], colAt[Name(2, Coord(2, i), v)], colAt[Name(3, Coord(3, i), v)]]
  }

  ghost function NamesOf(i: int, v: int): seq<int> {
    [i, Name(1, Coord(1, i), v), Name(2, Coord(2, i), v), Name(3, Coord(3, i), v)]
  }

  lemma CoordBounds(i: int)
    requires 0 <= i < 81
    ensures 0 <= Coord(1, i) < 9 && 0 <= Coord(2, i) < 9 && 0 <= Coord(3, i) < 9
  {
    var _ := UnitIndex(1, i);
    var _ := UnitIndex(2, i);
    var _ := UnitIndex(3, i);
  }

  /** Each matrix row is a candidate, is decoded as one and covers its four columns; none is there twice. */
  ghost predicate RowsFit(m: Matrix, d: Decoding, colAt: seq<int>, p: seq<int>) {
    && Static(m) && |d.cell| == |d.val| == |m.rows| && |colAt| == 400 && |p| == 81
    && (forall r :: 0 <= r < |m.rows| ==> RowFits(m, r, d.cell[r], d.val[r], colAt, p))
    && (forall r, q :: 0 <= r < q < |m.rows| ==> d.cell[r] != d.cell[q] || d.val[r] != d.val[q])
  }

  ghost predicate RowFits(m: Matrix, r: int, i: int, v: int, colAt: seq<int>, p: seq<int>)
    requires Static(m) && 0 <= r < |m.rows| && |colAt| == 400 && |p| == 81
  {
    && Candidate(p, i, v) && RowDecodes(m, r, i, v)
    && RowCols(m, r) == (set c | c in ColsOf(colAt, i, v))
  }

  function GetRowCol(row: int, val: int): int {
    100 + row * 10 + val
  }

  function GetColCol(col: int, val: int): int {
    200 + col * 10 + val
  }

  function GetBoxCol(box: int, val: int): int {
    300 + box * 10 + val
  }

  /** Exactly the columns of puzzle `p` have a header. */
  ghost predicate ColumnsFor(colAt: seq<int>, p: seq<int>) {
    |colAt| == 400 && |p| == 81 && forall n :: 0 <= n < 400 ==> (colAt[n] != -1 <==> IsColumn(p, n))
  }

  lemma {:induction false} CandidateColumns(colAt: seq<int>, w: map<int, seq<int>>, p: seq<int>, i: int, v: int)
    requires Filed(colAt, w) && ColumnsFor(colAt, p) && Candidate(p, i, v)
    ensures forall n :: n in NamesOf(i, v) ==> 0 <= n < 400 && colAt[n] in w
    ensures 0 <= Name(1, Coord(1, i), v) < 400 && 0 <= Name(2, Coord(2, i), v) < 400
    ensures 0 <= Name(3, Coord(3, i), v) < 400
    ensures Distinct(ColsOf(colAt, i, v)) && forall c :: c in ColsOf(colAt, i, v) ==> c in w
  {
    var ns := NamesOf(i, v);
    assert 0 <= i < 81 && 1 <= v <= 9;
    CandidateNames(p, i, v);
    ColumnAt(colAt, w, p, ns[0]);
    ColumnAt(colAt, w, p, ns[1]);
    ColumnAt(colAt, w, p, ns[2]);
    ColumnAt(colAt, w, p, ns[3]);
    hide Candidate, Coord, IsColumn, ColumnsFor;
    assert ColsOf(colAt, i, v) == [colAt[ns[0]], colAt[ns[1]], colAt[ns[2]], colAt[ns[3]]];
    DistinctColumns(colAt, w, ns[0], ns[1], ns[2], ns[3]);
    hide Filed, ColsOf, Distinct;
  }

  lemma ColumnAt(colAt: seq<int>, w: map<int, seq<int>>, p: seq<int>, n: int)
    requires Filed(colAt, w) && ColumnsFor(colAt, p) && 0 <= n < 400 && IsColumn(p, n)
    ensures colAt[n] != -1 && colAt[n] in w
  {
  }

  lemma DistinctColumns(colAt: seq<int>, w: map<int, seq<int>>, a: int, b: int, c: int, d: int)
    requires Filed(colAt, w) && 0 <= a < b < c < d < 400
    requires colAt[a] != -1 && colAt[b] != -1 && colAt[c] != -1
    ensures Distinct([colAt[a], colAt[b], colAt[c], colAt[d]])
  {
    assert colAt[a] != colAt[b] && colAt[a] != colAt[c] && colAt[a] != colAt[d];
    assert colAt[b] != colAt[c] && colAt[b] != colAt[d] && colAt[c] != colAt[d];
    hide Filed;
  }

  /** The four names of a candidate are names of columns, in ascending order. */
  lemma {:induction false} CandidateNames(p: seq<int>, i: int, v: int)
    requires |p| == 81 && Candidate(p, i, v)
    ensures var ns := NamesOf(i, v);
            && 0 <= ns[0] < ns[1] < ns[2] < ns[3] < 400
            && IsColumn(p, ns[0]) && IsColumn(p, ns[1]) && IsColumn(p, ns[2]) && IsColumn(p, ns[3])
  {
    CoordBounds(i);
    CandidateName(p, i, v, 1);
    CandidateName(p, i, v, 2);
    CandidateName(p, i, v, 3);
    assert IsColumn(p, i);
    hide HasDigit, Candidate, Coord, IsColumn;
  }

  lemma CandidateName(p: seq<int>, i: int, v: int, t: int)
    requires |p| == 81 && Candidate(p, i, v) && 1 <= t <= 3
    ensures IsColumn(p, Name(t, Coord(t, i), v))
    ensures 100 * t < Name(t, Coord(t, i), v) < 100 * t + 90
  {
    CoordBounds(i);
    assert !HasDigit(p, t, Coord(t, i), v);
    hide HasDigit, Candidate, Coord;
    NameParts(t, Coord(t, i), v);
  }

  lemma RowArguments(colAt: seq<int>, i: int, v: int)
    requires |colAt| == 400 && 0 <= i < 81 && 1 <= v <= 9
    ensures var a, b, c := GetRowCol(i / 9, v), GetColCol(i % 9, v), GetBoxCol(i / 9 / 3 * 3 + i % 9 / 3, v);
            && 0 <= a < 400 && 0 <= b < 400 && 0 <= c < 400
            && NamesOf(i, v) == [i, a, b, c] && ColsOf(colAt, i, v) == [colAt[i], colAt[a], colAt[b], colAt[c]]
  {
    CoordIs(i);
    hide Coord;
  }

  lemma SameFiles(colAt: seq<int>, w: map<int, seq<int>>, w': map<int, seq<int>>)
    requires Filed(colAt, w) && w.Keys == w'.Keys
    ensures Filed(colAt, w')
  {
    assert forall c :: c in w' <==> c in w.Keys;
  }

  lemma GrowingStatic(m: Matrix, s: Nodes, heads: seq<int>, w: map<int, seq<int>>, cur: int)
    requires Growing(m, s, heads, m.colOf, w, cur)
    ensures Static(m) && forall y :: y in m.colOf ==> y < cur
  {
  }

  lemma {:induction false} RowsFitGrow(m: Matrix, d: Decoding, colAt: seq<int>, p: seq<int>, x: int, i: int, v: int)
    requires RowsFit(m, d, colAt, p) && Candidate(p, i, v) && forall y :: y in m.colOf ==> y < x
    requires Distinct(ColsOf(colAt, i, v))
    requires forall r :: 0 <= r < |d.cell| ==> d.cell[r] != i || d.val[r] != v
    ensures RowsFit(WithRow(m, x, ColsOf(colAt, i, v), NamesOf(i, v)),
                    Decoding(d.cell + [i], d.val + [v]), colAt, p)
  {
    hide Static, RowFits, Distinct, HasDigit, WithRow;
    var cs, ns := ColsOf(colAt, i, v), NamesOf(i, v);
    var m', d' := WithRow(m, x, cs, ns), Decoding(d.cell + [i], d.val + [v]);
    WithRowStatic(m, x, cs, ns);
    WithRowSize(m, x, cs, ns);
    forall r | 0 <= r < |m'.rows|
      ensures RowFits(m', r, d'.cell[r], d'.val[r], colAt, p)
    {
      if r < |m.rows| {
        OldRowFits(m, r, d.cell[r], d.val[r], colAt, p, x, cs, ns);
      } else {
        NewRowFits(m, colAt, p, x, i, v);
      }
    }
  }

  lemma WithRowSize(m: Matrix, x: int, cs: seq<int>, ns: seq<int>)
    requires |cs| == |ns| == 4
    ensures |WithRow(m, x, cs, ns).rows| == |m.rows| + 1
  {
  }

  lemma {:induction false} OldRowFits(m: Matrix, r: int, i: int, v: int, colAt: seq<int>, p: seq<int>,
                                      x: int, cs: seq<int>, ns: seq<int>)
    requires Static(m) && 0 <= r < |m.rows| && |colAt| == 400 && |p| == 81 && RowFits(m, r, i, v, colAt, p)
    requires |cs| == |ns| == 4 && Distinct(cs) && forall y :: y in m.colOf ==> y < x
    requires Static(WithRow(m, x, cs, ns))
    ensures RowFits(WithRow(m, x, cs, ns), r, i, v, colAt, p)
  {
    hide Static, Candidate, ColsOf, Distinct, RowCols, WithRow;
    WithRowCols(m, x, cs, ns);
    OldRowNames(m, r, x, cs, ns);
  }

  lemma OldRowNames(m: Matrix, r: int, x: int, cs: seq<int>, ns: seq<int>)
    requires Static(m) && 0 <= r < |m.rows| && |cs| == |ns| == 4 && forall y :: y in m.colOf ==> y < x
    ensures var m' := WithRow(m, x, cs, ns);
            && r < |m'.rows| && m'.rows[r] == m.rows[r]
            && forall y :: y in m.rows[r] ==> y in m.name && y in m'.name && m'.name[y] == m.name[y]
  {
    assert m.colOf.Keys == m.name.Keys;
    RowBelow(m, r);
    hide Static, Distinct;
  }

  lemma {:induction false} NewRowFits(m: Matrix, colAt: seq<int>, p: seq<int>, x: int, i: int, v: int)
    requires Static(m) && |colAt| == 400 && |p| == 81 && Candidate(p, i, v)
    requires Distinct(ColsOf(colAt, i, v)) && forall y :: y in m.colOf ==> y < x
    requires Static(WithRow(m, x, ColsOf(colAt, i, v), NamesOf(i, v)))
    ensures RowFits(WithRow(m, x, ColsOf(colAt, i, v), NamesOf(i, v)), |m.rows|, i, v, colAt, p)
  {
    var cs, ns := ColsOf(colAt, i, v), NamesOf(i, v);
    assert 0 <= i < 81 && 1 <= v <= 9;
    WithRowCols(m, x, cs, ns);
    NewRowDecodes(m, x, cs, i, v);
    hide Static, WithRow, RowCols, RowDecodes, Candidate, NamesOf;
    assert |cs| == 4 && (set c | c in cs) == {cs[0], cs[1], cs[2], cs[3]};
    hide ColsOf;
  }

  lemma {:induction false} NewRowDecodes(m: Matrix, x: int, cs: seq<int>, i: int, v: int)
    requires |cs| == 4 && 0 <= i < 81 && 1 <= v <= 9 && Static(WithRow(m, x, cs, NamesOf(i, v)))
    ensures RowDecodes(WithRow(m, x, cs, NamesOf(i, v)), |m.rows|, i, v)
  {
    var ns := NamesOf(i, v);
    NewRowNames(m, x, cs, ns);
    CoordBounds(i);
    NameParts(1, Coord(1, i), v);
    NameParts(2, Coord(2, i), v);
    NameParts(3, Coord(3, i), v);
    hide Static, Coord, WithRow, Name, RowDecodes;
    FourDecode(WithRow(m, x, cs, ns), |m.rows|, x, i, v);
  }

  lemma FourDecode(m: Matrix, r: int, x: int, i: int, v: int)
    requires Static(m) && 0 <= r < |m.rows| && m.rows[r] == [x, x + 1, x + 2, x + 3] && 0 <= i < 81
    requires x in m.name && x + 1 in m.name && x + 2 in m.name && x + 3 in m.name && m.name[x] == i
    requires m.name[x + 1] >= 100 && m.name[x + 2] >= 100 && m.name[x + 3] >= 100
    requires m.name[x + 1] % 10 == v && m.name[x + 2] % 10 == v && m.name[x + 3] % 10 == v
    ensures RowDecodes(m, r, i, v)
  {
    hide Static;
    assert x in m.rows[r] && x + 1 in m.rows[r];
  }

  lemma NewRowNames(m: Matrix, x: int, cs: seq<int>, ns: seq<int>)
    requires |cs| == |ns| == 4
    ensures var m' := WithRow(m, x, cs, ns);
            && |m'.rows| == |m.rows| + 1 && m'.rows[|m.rows|] == [x, x + 1, x + 2, x + 3]
            && x in m'.name && x + 1 in m'.name && x + 2 in m'.name && x + 3 in m'.name
            && m'.name[x] == ns[0] && m'.name[x + 1] == ns[1] && m'.name[x + 2] == ns[2] && m'.name[x + 3] == ns[3]
  {
  }

  /** The columns appended when the constructor reaches unit number `i` and digit `v`. */
  predicate Before(n: int, i: int, v: int) {
    n < 100 || n % 100 / 10 < i || (n % 100 / 10 == i && n % 10 < v)
  }

  ghost predicate Appended(colAt: seq<int>, p: seq<int>, i: int, v: int) {
    && |colAt| == 400 && |p| == 81
    && (forall n :: 0 <= n < 400 ==> (colAt[n] != -1 <==> IsColumn(p, n) && Before(n, i, v)))
  }

  lemma AppendedStart(colAt: seq<int>, p: seq<int>)
    requires |colAt| == 400 && |p| == 81
    requires forall n :: 0 <= n < 400 ==> (colAt[n] != -1 <==> n < 81 && p[n] == 0)
    ensures Appended(colAt, p, 0, 1)
  {
  }

  lemma AppendedRoll(colAt: seq<int>, p: seq<int>, i: int)
    requires Appended(colAt, p, i, 10)
    ensures Appended(colAt, p, i + 1, 1)
  {
    hide HasDigit;
  }

  lemma AppendedEnd(colAt: seq<int>, p: seq<int>)
    requires Appended(colAt, p, 9, 1)
    ensures ColumnsFor(colAt, p)
  {
    hide HasDigit;
  }

  lemma AppendedNext(colAt: seq<int>, p: seq<int>, i: int, v: int)
    requires Appended(colAt, p, i, v) && 0 <= i < 9 && 1 <= v <= 9
    ensures colAt[GetRowCol(i, v)] == colAt[GetColCol(i, v)] == colAt[GetBoxCol(i, v)] == -1
  {
    NameParts(1, i, v);
    NameParts(2, i, v);
    NameParts(3, i, v);
  }

  lemma {:induction false} AppendedStep(f: seq<int>, g: seq<int>, p: seq<int>, i: int, v: int)
    requires Appended(f, p, i, v) && |g| == 400 && 0 <= i < 9 && 1 <= v <= 9
    requires forall n :: 0 <= n < 400 ==>
               (g[n] != -1 <==>
                || f[n] != -1
                || (!HasDigit(p, 1, i, v) && n == GetRowCol(i, v))
                || (!HasDigit(p, 2, i, v) && n == GetColCol(i, v))
                || (!HasDigit(p, 3, i, v) && n == GetBoxCol(i, v)))
    ensures Appended(g, p, i, v + 1)
  {
    hide HasDigit;
    NameParts(1, i, v);
    NameParts(2, i, v);
    NameParts(3, i, v);
    forall n | 0 <= n < 400
      ensures g[n] != -1 <==> IsColumn(p, n) && Before(n, i, v + 1)
    {
      if n >= 100 {
        NameOf(n);
      }
    }
  }

  ghost predicate SeenUpTo(p: seq<int>, t: int, u: int, v: int, i: int)
    requires 0 <= i <= |p|
  {
    exists j :: 0 <= j < i && Coord(t, j) == u && p[j] == v
  }

  ghost predicate MarksUpTo(a: array2<bool>, p: seq<int>, t: int, i: int)
    requires 0 <= i <= |p|
    reads a
  {
    && a.Length0 == 81 && a.Length1 == 10
    && (forall u, v :: 0 <= u < 9 && 0 <= v < 10 ==> (a[u, v] <==> SeenUpTo(p, t, u, v, i)))
  }

  ghost predicate Marks(a: array2<bool>, p: seq<int>, t: int)
    reads a
  {
    && a.Length0 == 81 && a.Length1 == 10 && |p| == 81
    && (forall u, v :: 0 <= u < 9 && 0 <= v < 10 ==> (a[u, v] <==> HasDigit(p, t, u, v)))
  }

  method Mark(a: array2<bool>, u: int, v: int, ghost p: seq<int>, ghost t: int, ghost i: int)
    requires Board(p) && 0 <= i < 81 && MarksUpTo(a, p, t, i) && u == Coord(t, i) && 0 <= u < 9 && v == p[i]
    modifies a
    ensures MarksUpTo(a, p, t, i + 1)
  {
    hide Coord;
    a[u, v] := true;
    forall x, y | 0 <= x < 9 && 0 <= y < 10
      ensures SeenUpTo(p, t, x, y, i + 1) <==> SeenUpTo(p, t, x, y, i) || (x == u && y == v)
    {
      if SeenUpTo(p, t, x, y, i) {
        var j :| 0 <= j < i && Coord(t, j) == x && p[j] == y;
        assert 0 <= j < i + 1;
      }
    }
  }

  ghost predicate Coded(d: Decoding, i: int, v: int) {
    |d.val| == |d.cell| && exists r :: 0 <= r < |d.cell| && d.cell[r] == i && d.val[r] == v
  }

  /** The rows made when the constructor reaches digit `v` of cell `i`. */
  ghost predicate CodedUpTo(d: Decoding, p: seq<int>, i: int, v: int)
    requires |p| == 81
  {
    && |d.val| == |d.cell|
    && (forall r :: 0 <= r < |d.cell| ==> d.cell[r] < i || (d.cell[r] == i && d.val[r] < v))
    && (forall k, u :: Candidate(p, k, u) && (k < i || (k == i && u < v)) ==> Coded(d, k, u))
  }

  lemma CodedStep(d: Decoding, p: seq<int>, i: int, v: int)
    requires |p| == 81 && CodedUpTo(d, p, i, v)
    ensures CodedUpTo(Decoding(d.cell + [i], d.val + [v]), p, i, v + 1)
  {
    hide Candidate;
    var d' := Decoding(d.cell + [i], d.val + [v]);
    forall k, u | Candidate(p, k, u) && (k < i || (k == i && u < v + 1))
      ensures Coded(d', k, u)
    {
      if k == i && u == v {
        assert d'.cell[|d.cell|] == i && d'.val[|d.cell|] == v;
      } else {
        assert Coded(d, k, u);
        var r :| 0 <= r < |d.cell| && d.cell[r] == k && d.val[r] == u;
        assert d'.cell[r] == k && d'.val[r] == u;
      }
    }
  }

  lemma CoordIs(i: int)
    requires 0 <= i < 81
    ensures Coord(1, i) == i / 9 && Coord(2, i) == i % 9 && Coord(3, i) == i / 9 / 3 * 3 + i % 9 / 3
    ensures 0 <= Coord(1, i) < 9 && 0 <= Coord(2, i) < 9 && 0 <= Coord(3, i) < 9
  {
    CoordBounds(i);
  }

  /** The torus of matrix `m` and columns `w` is the exact cover problem of puzzle `p`. */
  ghost predicate Encodes(m: Matrix, d: Decoding, colAt: seq<int>, w: map<int, seq<int>>, p: seq<int>) {
    && Filed(colAt, w) && ColumnsFor(colAt, p) && RowsFit(m, d, colAt, p)
    && (forall i, v :: Candidate(p, i, v) ==> Coded(d, i, v))
  }

  lemma EmptyTorus(s: Nodes, m: Matrix)
    requires |s| > 1 && s[0] == Single(0, 0, 0) && m == Matrix(0, [], map[], map[], map[])
    ensures Growing(m, s, [], m.colOf, map[], 1)
  {
    assert [0] + [] == [0];
  }

  lemma NothingYet(colAt: seq<int>, m: Matrix, p: seq<int>)
    requires |colAt| == 400 && |p| == 81 && m == Matrix(0, [], map[], map[], map[])
    ensures RowsFit(m, Decoding([], []), colAt, p)
    ensures (forall n :: 0 <= n < 400 ==> colAt[n] == -1) ==> Filed(colAt, map[])
  {
  }

  lemma StillAlone(s1: Nodes, s2: Nodes, s3: Nodes, s4: Nodes, x: int, cs: seq<int>, ns: seq<int>)
    requires |cs| == |ns| == 4 && 0 <= x && x + 4 <= |s1|
    requires Alone(s1, x, cs[0], ns[0])
    requires Alone(s2, x + 1, cs[1], ns[1]) && RowLinksKept(s1, s2, x + 1)
    requires Alone(s3, x + 2, cs[2], ns[2]) && RowLinksKept(s2, s3, x + 2)
    requires Alone(s4, x + 3, cs[3], ns[3]) && RowLinksKept(s3, s4, x + 3)
    ensures |s4| == |s1| && forall k {:trigger cs[k]} :: 0 <= k < 4 ==> Alone(s4, x + k, cs[k], ns[k])
    ensures forall k :: x <= k < x + 4 ==> s4[k].left == k && s4[k].right == k
  {
    forall k | x <= k < x + 4
      ensures s4[k].left == k && s4[k].right == k && s4[k].col == cs[k - x] && s4[k].name == ns[k - x]
    {
    }
  }

  lemma FileColumn(colAt: seq<int>, m: Matrix, s: Nodes, heads: seq<int>, w: map<int, seq<int>>, c: int, n: int)
    requires Filed(colAt, w) && Growing(m, s, heads, m.colOf, w, c) && 0 <= n < 400 && colAt[n] == -1
    ensures Filed(colAt[n := c], w[c := []])
  {
    hide Growing;
    assert c !in w && 0 <= c by {
      GrowingBelow(m, s, heads, m.colOf, w, c);
    }
    var f, w' := colAt[n := c], w[c := []];
    forall d | d in w'
      ensures d != -1 && exists k :: 0 <= k < 400 && f[k] == d
    {
      if d == c {
        assert f[n] == c;
      } else {
        var k :| 0 <= k < 400 && colAt[k] == d;
        assert f[k] == d;
      }
    }
  }

  lemma GrowingBelow(m: Matrix, s: Nodes, heads: seq<int>, a: map<int, int>, w: map<int, seq<int>>, cur: int)
    requires Growing(m, s, heads, a, w, cur)
    ensures 0 <= m.root < cur <= |s|
    ensures (forall x :: x in a ==> 0 <= x < cur) && (forall c :: c in w ==> 0 <= c < cur)
  {
  }

  lemma HeadAt(s: Nodes, root: int, heads: seq<int>, i: int)
    requires HeadsWalk(s, root, heads)
    ensures 0 <= root < |s| && (heads != [] ==> s[root].right == heads[0])
    ensures 0 <= i < |heads| ==>
              && 0 <= heads[i] < |s| && heads[i] != root
              && s[heads[i]].right == if i + 1 < |heads| then heads[i + 1] else root
  {
  }

  /** The sizes of the first `n` columns are at least `size`. */
  ghost predicate AtMost(s: Nodes, heads: seq<int>, n: int, size: int) {
    forall k :: 0 <= k < n && k < |heads| && 0 <= heads[k] < |s| ==> size <= s[heads[k]].size
  }

  lemma AtMostMore(s: Nodes, heads: seq<int>, n: int, size: int, size': int)
    requires 0 <= n < |heads| && 0 <= heads[n] < |s| && size' <= size && size' <= s[heads[n]].size
    ensures AtMost(s, heads, n, size) ==> AtMost(s, heads, n + 1, size')
    ensures AtMost(s, heads, 0, size)
  {
  }

  lemma AtMostAll(s: Nodes, root: int, heads: seq<int>, size: int)
    requires HeadsWalk(s, root, heads)
    ensures AtMost(s, heads, |heads|, size) ==> forall k :: 0 <= k < |heads| ==> size <= s[heads[k]].size
  {
  }

  class Solver {
    const inout: array<int>
    const nodes: array<Node>
    const columns: array<int>
    const root: int
    var stack: seq<int>
    var curNode: int

    // the abstract torus built so far
    ghost var mat: Matrix
    ghost var code: Decoding
    ghost var heads: seq<int>
    ghost var w: map<int, seq<int>>

    /**
      Lays out the exact cover problem of the board: a column for every constraint that the
      clues leave open and a row for every digit that they leave possible.
    */
    constructor (board: array<int>)
      requires Board(board[..])
      ensures inout == board && fresh(nodes) && nodes.Length == MAX_NODES && stack == []
      ensures curNode <= MAX_NODES && mat.root == root
      ensures WellFormed(mat, Torus(nodes[..], heads, w))
      ensures Encodes(mat, code, columns[..], w, board[..])
    {
      inout := board;
      nodes := new Node[MAX_NODES](_ => Node(0, 0, 0, 0, 0, 0, 0));
      columns := new int[400](_ => -1);
      root := 0;
      stack := [];
      curNode := 0;
      mat := Matrix(0, [], map[], map[], map[]);
      code := Decoding([], []);
      heads := [];
      w := map[];
      new;
      Build(board[..]);
    }

    /** The constructor's body: mark the clues, then append columns and rows. */
    method Build(ghost p: seq<int>)
      requires Board(p) && inout[..] == p && columns != inout
      requires nodes.Length == MAX_NODES && columns.Length == 400 && forall n :: 0 <= n < 400 ==> columns[n] == -1
      requires root == 0 && curNode == 0 && heads == [] && w == map[]
      requires mat == Matrix(0, [], map[], map[], map[]) && code == Decoding([], [])
      modifies nodes, columns, this`curNode, this`heads, this`w, this`mat, this`code
      ensures curNode <= MAX_NODES && mat.root == root
      ensures WellFormed(mat, Torus(nodes[..], heads, w))
      ensures Encodes(mat, code, columns[..], w, p)
    {
      hide Growing, Filed, RowsFit, ColumnsFor, Candidate, WellFormed, Board, Marks;
      var rows, cols, boxes := MarkClues();
      var c := NewColumn(0);
      EmptyTorus(nodes[..], mat);
      NothingYet(columns[..], mat, p);
      AppendCells(p);
      AppendUnits(rows, cols, boxes, p);
      NothingYet(columns[..], mat, p);
      AppendRows(rows, cols, boxes, p);
      GrownIsWellFormed(mat, nodes[..], heads, w, curNode);
    }

    /** Which digits the clues put into each row, column and box. */
    method MarkClues() returns (rows: array2<bool>, cols: array2<bool>, boxes: array2<bool>)
      requires Board(inout[..])
      ensures Marks(rows, inout[..], 1) && Marks(cols, inout[..], 2) && Marks(boxes, inout[..], 3)
      ensures inout.Length == 81
      ensures fresh(rows) && fresh(cols) && fresh(boxes)
    {
      rows := new bool[81, 10]((_, _) => false);
      cols := new bool[81, 10]((_, _) => false);
      boxes := new bool[81, 10]((_, _) => false);
      ghost var p := inout[..];
      var i := 0;
      while i < 81
        invariant 0 <= i <= 81 && inout[..] == p
        invariant MarksUpTo(rows, p, 1, i) && MarksUpTo(cols, p, 2, i) && MarksUpTo(boxes, p, 3, i)
      {
        var row, col := i / 9, i % 9;
        var box := row / 3 * 3 + col / 3;
        var val := inout[i];
        CoordBounds(i);
        Mark(rows, row, val, p, 1, i);
        Mark(cols, col, val, p, 2, i);
        Mark(boxes, box, val, p, 3, i);
        i := i + 1;
      }
    }

    /** A column for every empty cell. */
    method AppendCells(ghost p: seq<int>)
      requires Built() && curNode == 1 && columns != inout && inout[..] == p && Board(p)
      requires forall n :: 0 <= n < 400 ==> columns[n] == -1
      modifies nodes, columns, this`curNode, this`heads, this`w
      ensures Built() && 1 <= curNode <= 82
      ensures forall n :: 0 <= n < 400 ==> (columns[n] != -1 <==> n < 81 && p[n] == 0)
    {
      hide Growing, Filed;
      var i := 0;
      while i < 81
        invariant 0 <= i <= 81 && inout[..] == p
        invariant Built() && 1 <= curNode <= 1 + i
        invariant forall n :: 0 <= n < 400 ==> (columns[n] != -1 <==> n < i && p[n] == 0)
      {
        if inout[i] == 0 {
          AppendColumn(i);
        }
        i := i + 1;
      }
    }

    /** The columns of one unit number and digit. */
    method AppendUnit(i: int, v: int, r: bool, c: bool, b: bool)
      requires Built() && curNode + 3 <= MAX_NODES && 0 <= i < 9 && 1 <= v <= 9
      requires columns[GetRowCol(i, v)] == -1 && columns[GetColCol(i, v)] == -1 && columns[GetBoxCol(i, v)] == -1
      modifies nodes, columns, this`curNode, this`heads, this`w
      ensures Built() && old(curNode) <= curNode <= old(curNode) + 3
      ensures forall n :: 0 <= n < 400 ==>
                (columns[n] != -1 <==>
                 || old(columns[n]) != -1
                 || (!r && n == GetRowCol(i, v)) || (!c && n == GetColCol(i, v)) || (!b && n == GetBoxCol(i, v)))
    {
      hide Growing, Filed;
      if !r {
        AppendColumn(GetRowCol(i, v));
      }
      if !c {
        AppendColumn(GetColCol(i, v));
      }
      if !b {
        AppendColumn(GetBoxCol(i, v));
      }
    }

    /** A column for every unit and digit that no clue supplies. */
    method AppendUnits(rows: array2<bool>, cols: array2<bool>, boxes: array2<bool>, ghost p: seq<int>)
      requires Built() && 1 <= curNode <= 82 && Board(p)
      requires Marks(rows, p, 1) && Marks(cols, p, 2) && Marks(boxes, p, 3)
      requires forall n :: 0 <= n < 400 ==> (columns[n] != -1 <==> n < 81 && p[n] == 0)
      modifies nodes, columns, this`curNode, this`heads, this`w
      ensures Built() && 1 <= curNode <= 325 && ColumnsFor(columns[..], p)
    {
      hide Growing, Filed, HasDigit, Appended, ColumnsFor;
      AppendedStart(columns[..], p);
      var i := 0;
      while i < 9
        invariant 0 <= i <= 9 && Built() && 1 <= curNode <= 82 + 27 * i
        invariant Appended(columns[..], p, i, 1)
      {
        var v := 1;
        while v < 10
          invariant 1 <= v <= 10 && Built() && 1 <= curNode <= 82 + 27 * i + 3 * (v - 1)
          invariant Appended(columns[..], p, i, v)
        {
          ghost var f := columns[..];
          AppendedNext(f, p, i, v);
          AppendUnit(i, v, rows[i, v], cols[i, v], boxes[i, v]);
          AppendedStep(f, columns[..], p, i, v);
          v := v + 1;
        }
        AppendedRoll(columns[..], p, i);
        i := i + 1;
      }
      AppendedEnd(columns[..], p);
    }

    /** A matrix row for every digit that an empty cell may still take. */
    method AppendRows(rows: array2<bool>, cols: array2<bool>, boxes: array2<bool>, ghost p: seq<int>)
      requires Built() && 1 <= curNode <= 325 && Board(p) && inout[..] == p && ColumnsFor(columns[..], p)
      requires Marks(rows, p, 1) && Marks(cols, p, 2) && Marks(boxes, p, 3)
      requires RowsFit(mat, code, columns[..], p) && code == Decoding([], [])
      modifies nodes, this`curNode, this`w, this`mat, this`code
      ensures Built() && curNode <= MAX_NODES && RowsFit(mat, code, columns[..], p)
      ensures forall i, v :: Candidate(p, i, v) ==> Coded(code, i, v)
    {
      hide Growing, Filed, HasDigit, RowsFit, Coord;
      var i := 0;
      while i < 81
        invariant 0 <= i <= 81 && Built() && 1 <= curNode <= 325 + 36 * i
        invariant RowsFit(mat, code, columns[..], p) && CodedUpTo(code, p, i, 1)
      {
        if inout[i] == 0 {
          var row, col := i / 9, i % 9;
          var box := row / 3 * 3 + col / 3;
          CoordIs(i);
          var v := 1;
          while v < 10
            invariant 1 <= v <= 10 && Built() && 1 <= curNode <= 325 + 36 * i + 4 * (v - 1)
            invariant RowsFit(mat, code, columns[..], p) && CodedUpTo(code, p, i, v)
          {
            if !(rows[row, v] || cols[col, v] || boxes[box, v]) {
              assert Candidate(p, i, v);
              ghost var d := code;
              AddRow(i, v, p);
              CodedStep(d, p, i, v);
            }
            v := v + 1;
          }
        }
        i := i + 1;
      }
    }

    /** Between two steps of the constructor. */
    ghost predicate Built()
      reads this, nodes, columns
    {
      && nodes.Length == MAX_NODES && columns.Length == 400 && mat.root == root && 0 <= curNode
      && Growing(mat, nodes[..], heads, mat.colOf, w, curNode)
      && Filed(columns[..], w)
    }

    method NewColumn(n: int) returns (c: int)
      requires 0 <= curNode < nodes.Length
      modifies nodes, this`curNode
      ensures c == old(curNode) && curNode == c + 1
      ensures nodes[..] == old(nodes[..])[c := Single(c, c, n)]
    {
      c := curNode;
      curNode := curNode + 1;
      nodes[c] := Node(c, c, c, c, c, n, 0);
    }

    method PutLeft(o: int, x: int)
      requires 0 <= o < nodes.Length && 0 <= x < nodes.Length && 0 <= nodes[o].left < nodes.Length
      requires o != x && nodes[o].left != x
      modifies nodes
      ensures nodes[..] == TorusBuilding.PutLeft(old(nodes[..]), o, x)
    {
      nodes[x] := nodes[x].(left := nodes[o].left);
      nodes[x] := nodes[x].(right := o);
      nodes[nodes[o].left] := nodes[nodes[o].left].(right := x);
      nodes[o] := nodes[o].(left := x);
    }

    method PutUp(o: int, x: int)
      requires 0 <= o < nodes.Length && 0 <= x < nodes.Length && 0 <= nodes[o].up < nodes.Length
      requires o != x && nodes[o].up != x
      modifies nodes
      ensures nodes[..] == TorusBuilding.PutUp(old(nodes[..]), o, x)
    {
      nodes[x] := nodes[x].(up := nodes[o].up);
      nodes[x] := nodes[x].(down := o);
      nodes[nodes[o].up] := nodes[nodes[o].up].(down := x);
      nodes[o] := nodes[o].(up := x);
      nodes[o] := nodes[o].(size := nodes[o].size + 1);
      nodes[x] := nodes[x].(col := o);
    }

    /** A header for column `n`; no other column has that name yet. */
    method AppendColumn(n: int)
      requires Built() && curNode < MAX_NODES && 0 <= n < 400 && columns[n] == -1
      modifies nodes, columns, this`curNode, this`heads, this`w
      ensures Built() && curNode == old(curNode) + 1
      ensures forall k :: 0 <= k < 400 ==> columns[k] == if k == n then old(curNode) else old(columns[k])
    {
      hide Growing, Filed;
      GrowingBelow(mat, nodes[..], heads, mat.colOf, w, curNode);
      assert columns[..][n] == -1;
      GrowColumn(mat, nodes[..], heads, w, curNode, n);
      FileColumn(columns[..], mat, nodes[..], heads, w, curNode, n);
      var c := NewColumn(n);
      PutLeft(root, c);
      columns[n] := c;
      heads, w := heads + [c], w[c := []];
    }

    method NewRow(col: int, ghost a: map<int, int>) returns (r: int)
      requires Growing(mat, nodes[..], heads, a, w, curNode)
      requires 0 <= curNode < nodes.Length && 0 <= col < columns.Length && columns[col] in w
      modifies nodes, this`curNode, this`w
      ensures r == old(curNode) && curNode == r + 1
      ensures w == old(w)[columns[col] := old(w)[columns[col]] + [r]]
      ensures Growing(mat, nodes[..], heads, a[r := columns[col]], w, curNode)
      ensures RowLinksKept(old(nodes[..]), nodes[..], r) && Alone(nodes[..], r, columns[col], col)
    {
      hide Growing;
      GrowNode(mat, nodes[..], heads, a, w, curNode, columns[col], col);
      r := curNode;
      curNode := curNode + 1;
      nodes[r] := Node(r, r, r, r, columns[col], col, 0);
      PutUp(nodes[r].col, r);
      w := w[columns[col] := w[columns[col]] + [r]];
    }

    /** Four new nodes, each alone in its row, in the columns named `ns`. */
    method NewRows(a: int, b: int, c: int, d: int, ghost ns: seq<int>, ghost cs: seq<int>)
      returns (n0: int, nr: int, nc: int, nb: int)
      requires Growing(mat, nodes[..], heads, mat.colOf, w, curNode) && 0 <= curNode && curNode + 4 <= nodes.Length
      requires 0 <= a < columns.Length && 0 <= b < columns.Length && 0 <= c < columns.Length && 0 <= d < columns.Length
      requires ns == [a, b, c, d] && cs == [columns[a], columns[b], columns[c], columns[d]]
      requires columns[a] in w && columns[b] in w && columns[c] in w && columns[d] in w
      modifies nodes, this`curNode, this`w
      ensures n0 == old(curNode) && nr == n0 + 1 && nc == n0 + 2 && nb == n0 + 3
      ensures curNode == n0 + 4 && w.Keys == old(w.Keys)
      ensures Growing(mat, nodes[..], heads, WithRow(mat, n0, cs, ns).colOf, w, curNode)
      ensures forall k {:trigger cs[k]} :: 0 <= k < 4 ==> Alone(nodes[..], n0 + k, cs[k], ns[k])
      ensures forall k :: n0 <= k < n0 + 4 ==> nodes[..][k].left == k && nodes[..][k].right == k
    {
      hide Growing, RowLinksKept, Alone;
      ghost var a0 := mat.colOf;
      n0 := NewRow(a, a0);
      ghost var s1, a1 := nodes[..], a0[n0 := cs[0]];
      nr := NewRow(b, a1);
      ghost var s2, a2 := nodes[..], a1[n0 + 1 := cs[1]];
      nc := NewRow(c, a2);
      ghost var s3, a3 := nodes[..], a2[n0 + 2 := cs[2]];
      nb := NewRow(d, a3);
      assert a3[n0 + 3 := cs[3]] == WithRow(mat, n0, cs, ns).colOf;
      StillAlone(s1, s2, s3, nodes[..], n0, cs, ns);
    }

    /** The four `new_row` and three `put_left` calls that make one matrix row. */
    method JoinRow(a: int, b: int, c: int, d: int, ghost ns: seq<int>, ghost cs: seq<int>)
      requires Growing(mat, nodes[..], heads, mat.colOf, w, curNode) && curNode + 4 <= nodes.Length
      requires 0 <= a < columns.Length && 0 <= b < columns.Length && 0 <= c < columns.Length && 0 <= d < columns.Length
      requires ns == [a, b, c, d] && cs == [columns[a], columns[b], columns[c], columns[d]] && Distinct(cs)
      requires columns[a] in w && columns[b] in w && columns[c] in w && columns[d] in w
      modifies nodes, this`curNode, this`w, this`mat
      ensures curNode == old(curNode) + 4 && w.Keys == old(w.Keys)
      ensures mat == WithRow(old(mat), old(curNode), cs, ns) && mat.root == old(mat.root)
      ensures Growing(mat, nodes[..], heads, mat.colOf, w, curNode)
    {
      hide Growing, Distinct, TorusBuilding.PutLeft, HRing, OnlyRowLinks, Joined, Alone, With4;
      GrowingBelow(mat, nodes[..], heads, mat.colOf, w, curNode);
      var n0, nr, nc, nb := NewRows(a, b, c, d, ns, cs);
      ghost var s := nodes[..];
      JoinFour(s, n0);
      PutLeft(n0, nr);
      PutLeft(n0, nc);
      PutLeft(n0, nb);
      RowAdded(mat, s, nodes[..], heads, w, n0, cs, ns);
      mat := WithRow(mat, n0, cs, ns);
    }

    method AddRow(i: int, v: int, ghost p: seq<int>)
      requires Built() && RowsFit(mat, code, columns[..], p) && ColumnsFor(columns[..], p)
      requires Candidate(p, i, v) && curNode + 4 <= MAX_NODES
      requires forall r :: 0 <= r < |code.cell| ==> code.cell[r] != i || code.val[r] != v
      modifies nodes, this`curNode, this`w, this`mat, this`code
      ensures Built() && RowsFit(mat, code, columns[..], p) && curNode == old(curNode) + 4
      ensures code == Decoding(old(code.cell) + [i], old(code.val) + [v])
    {
      hide Growing, RowsFit, Coord, Distinct, Filed, HasDigit, WithRow, ColumnsFor, ColsOf, NamesOf;
      ghost var f, x, m, w0 := columns[..], curNode, mat, w;
      CandidateColumns(f, w, p, i, v);
      RowArguments(f, i, v);
      var nr, nc, nb := GetRowCol(i / 9, v), GetColCol(i % 9, v), GetBoxCol(i / 9 / 3 * 3 + i % 9 / 3, v);
      GrowingStatic(m, nodes[..], heads, w, x);
      JoinRow(i, nr, nc, nb, NamesOf(i, v), ColsOf(f, i, v));
      SameFiles(f, w0, w);
      RowsFitGrow(m, code, f, p, x, i, v);
      code := Decoding(code.cell + [i], code.val + [v]);
    }

    method Hide(j: int, ghost t: Nodes)
      requires Hides(nodes[..], j, t)
      modifies nodes
      ensures nodes[..] == t
    {
      nodes[nodes[j].down] := nodes[nodes[j].down].(up := nodes[j].up);
      nodes[nodes[j].up] := nodes[nodes[j].up].(down := nodes[j].down);
      nodes[nodes[j].col] := nodes[nodes[j].col].(size := nodes[nodes[j].col].size - 1);
    }

    method Unhide(j: int, ghost t: Nodes)
      requires Hides(t, j, nodes[..])
      modifies nodes
      ensures nodes[..] == t
    {
      nodes[nodes[j].col] := nodes[nodes[j].col].(size := nodes[nodes[j].col].size + 1);
      nodes[nodes[j].down] := nodes[nodes[j].down].(up := j);
      nodes[nodes[j].up] := nodes[nodes[j].up].(down := j);
    }

    method HideRow(row: int, ghost l: seq<int>, ghost tr: seq<Nodes>)
      requires RowPlan(tr, row, l) && nodes[..] == tr[0]
      modifies nodes
      ensures nodes[..] == tr[|l|]
    {
      ghost var k := 0;
      var j := nodes[row].right;
      while j != row
        invariant 0 <= k <= |l| && nodes[..] == tr[k]
        invariant j == if k < |l| then l[k] else row
        decreases |l| - k
      {
        Hide(j, tr[k + 1]);
        k := k + 1;
        assert nodes[..][j] == tr[k][l[k - 1]];
        j := nodes[j].right;
      }
    }

    method UnhideRow(row: int, ghost l: seq<int>, ghost tr: seq<Nodes>)
      requires RowPlan(tr, row, l) && nodes[..] == tr[|l|]
      modifies nodes
      ensures nodes[..] == tr[0]
    {
      ghost var k := |l|;
      var j := nodes[row].left;
      while j != row
        invariant 0 <= k <= |l| && nodes[..] == tr[k]
        invariant j == if k > 0 then l[k - 1] else row
        decreases k
      {
        k := k - 1;
        assert l[k] == j;
        Unhide(j, tr[k]);
        assert nodes[..][j] == tr[k][l[k]];
        j := nodes[j].left;
      }
    }

    method HideRows(c: int, ghost p: Plan)
      requires ColumnPlan(p, c) && |p.rp| == |p.q| && nodes[..] == p.cs[0]
      modifies nodes
      ensures nodes[..] == p.cs[|p.q|]
    {
      ghost var i := 0;
      var row := nodes[c].down;
      while row != c
        invariant 0 <= i <= |p.q| && nodes[..] == p.cs[i]
        invariant row == if i < |p.q| then p.q[i] else c
        decreases |p.q| - i
      {
        HideRow(row, p.ls[i], p.rp[i]);
        i := i + 1;
        assert nodes[..][row] == p.cs[i][p.q[i - 1]];
        row := nodes[row].down;
      }
    }

    method UnhideRows(c: int, ghost p: Plan)
      requires ColumnPlan(p, c) && |p.rp| == |p.q| && nodes[..] == p.cs[|p.q|]
      modifies nodes
      ensures nodes[..] == p.cs[0]
    {
      ghost var i := |p.q|;
      var row := nodes[c].up;
      while row != c
        invariant 0 <= i <= |p.q| && nodes[..] == p.cs[i]
        invariant row == if i > 0 then p.q[i - 1] else c
        decreases i
      {
        i := i - 1;
        assert RowLeg(p.rp[i], row, p.ls[i], p.cs[i], p.cs[i + 1]);
        UnhideRow(row, p.ls[i], p.rp[i]);
        assert nodes[..][row] == p.cs[i][p.q[i]];
        row := nodes[row].up;
      }
    }

    method Cover(c: int, ghost z: Trip)
      requires TripOk(z) && c == z.c && nodes[..] == z.s
      modifies nodes
      ensures nodes[..] == z.t
    {
      nodes[nodes[c].right] := nodes[nodes[c].right].(left := nodes[c].left);
      nodes[nodes[c].left] := nodes[nodes[c].left].(right := nodes[c].right);
      assert nodes[..] == Unlink(z.s, c);
      HideRows(c, z.p);
    }

    method Uncover(c: int, ghost z: Trip)
      requires TripOk(z) && c == z.c && nodes[..] == z.t
      modifies nodes
      ensures nodes[..] == z.s
    {
      UnhideRows(c, z.p);
      UnlinkThenRelink(z.s, c);
      nodes[nodes[c].right] := nodes[nodes[c].right].(left := c);
      nodes[nodes[c].left] := nodes[nodes[c].left].(right := c);
      assert nodes[..] == Relink(Unlink(z.s, c), c);
    }

    method CoverMates(row: int, ghost l: seq<int>, ghost zs: seq<Trip>, ghost ss: seq<Nodes>)
      requires Journey(zs, ss, row, l) && |zs| == |l| && nodes[..] == ss[0]
      modifies nodes
      ensures nodes[..] == ss[|l|]
    {
      ghost var k := 0;
      var j := nodes[row].right;
      while j != row
        invariant 0 <= k <= |l| && nodes[..] == ss[k]
        invariant j == if k < |l| then l[k] else row
        decreases |l| - k
      {
        assert Stage(zs[k], ss[k], j, ss[k + 1]);
        assert nodes[..][j] == ss[k][j];
        Cover(nodes[j].col, zs[k]);
        k := k + 1;
        assert nodes[..][j] == ss[k][l[k - 1]];
        j := nodes[j].right;
      }
    }

    method UncoverMates(row: int, ghost l: seq<int>, ghost zs: seq<Trip>, ghost ss: seq<Nodes>)
      requires Journey(zs, ss, row, l) && |zs| == |l| && nodes[..] == ss[|l|]
      modifies nodes
      ensures nodes[..] == ss[0]
    {
      ghost var k := |l|;
      var j := nodes[row].left;
      while j != row
        invariant 0 <= k <= |l| && nodes[..] == ss[k]
        invariant j == if k > 0 then l[k - 1] else row
        decreases k
      {
        k := k - 1;
        assert Stage(zs[k], ss[k], j, ss[k + 1]);
        assert nodes[..][j] == ss[k + 1][j];
        Uncover(nodes[j].col, zs[k]);
        assert nodes[..][j] == ss[k][l[k]];
        j := nodes[j].left;
      }
    }

    /** `get_min_column`: a smallest column, or the first one found with at most one node. */
    method GetMinColumn(ghost heads: seq<int>) returns (c: int)
      requires HeadsWalk(nodes[..], root, heads) && heads != []
      ensures c in heads && 0 <= c < nodes.Length
      ensures nodes[c].size <= 1
              || forall k :: 0 <= k < |heads| ==> nodes[c].size <= nodes[..][heads[k]].size
    {
      hide HeadsWalk, AtMost;
      ghost var s := nodes[..];
      HeadAt(s, root, heads, 0);
      c := nodes[root].right;
      assert c == s[root].right;
      var minSize := nodes[c].size;
      assert minSize == s[c].size;
      if minSize > 1 {
        ghost var i := 1;
        var cc := nodes[c].right;
        assert cc == s[c].right;
        AtMostMore(s, heads, 0, minSize, minSize);
        while cc != root
          invariant 1 <= i <= |heads| && cc == if i < |heads| then heads[i] else root
          invariant c in heads && 0 <= c < |s| && minSize == s[c].size
          invariant AtMost(s, heads, i, minSize)
          decreases |heads| - i
        {
          HeadAt(s, root, heads, i);
          assert nodes[cc] == s[cc];
          ghost var size := minSize;
          if minSize > nodes[cc].size {
            c := cc;
            minSize := nodes[cc].size;
            if minSize <= 1 {
              break;
            }
          }
          AtMostMore(s, heads, i, size, minSize);
          i := i + 1;
          cc := nodes[cc].right;
        }
        HeadAt(s, root, heads, i);
        assert nodes[c] == s[c];
        AtMostAll(s, root, heads, minSize);
      }
    }

    /** The inner loop of `solve`'s success case: read a row's cell and digit off its ring. */
    method Decode(x: int, ghost l: seq<int>, ghost theCell: int, ghost theVal: int) returns (cell: int, val: int)
      requires RowWalk(nodes[..], x, l) && NamesAlong(nodes[..], [x] + l, theCell, theVal)
      requires 0 <= theCell && 0 <= theVal
      ensures cell == theCell && val == theVal
    {
      ghost var f, k := [x] + l, 0;
      var n := x;
      cell, val := -1, -1;
      while cell == -1 || val == -1
        invariant 0 <= k <= |f| && n == if k < |f| then f[k] else x
        invariant cell == -1 || cell == theCell
        invariant val == -1 || val == theVal
        invariant cell == -1 ==> forall i :: 0 <= i < k ==> nodes[..][f[i]].name >= 100
        invariant val == -1 ==> forall i :: 0 <= i < k ==> nodes[..][f[i]].name < 100
        decreases |f| - k
      {
        assert k < |f|;
        assert nodes[..][n] == nodes[..][f[k]];
        if nodes[n].name < 100 {
          cell := nodes[n].name;
        } else {
          val := nodes[n].name % 10;
        }
        n := nodes[n].right;
        k := k + 1;
      }
    }

    /** The success case of `solve`: write every chosen row onto the board. */
    method WriteBoard(ghost m: Matrix, ghost d: Decoding, ghost st: Torus)
      requires WellFormed(m, st) && Decodes(m, d) && nodes[..] == st.s && inout.Length == 81
      requires forall x :: x in stack ==> x in m.place
      modifies inout
      ensures inout[..] == Fill(m, d, old(inout[..]), stack)
    {
      hide WellFormed, RowDecodes, Static;
      ghost var board := inout[..];
      assert stack[..0] == [];
      var i := 0;
      while i < |stack|
        invariant 0 <= i <= |stack| && nodes[..] == st.s
        invariant forall x :: x in stack[..i] ==> x in stack
        invariant inout[..] == Fill(m, d, board, stack[..i])
      {
        ghost var r := RowOf(m, stack[i]);
        RingNames(m, d, st, stack[i]);
        var cell, val := Decode(stack[i], Mates(m, stack[i]), d.cell[r], d.val[r]);
        inout[cell] := val;
        assert stack[..i + 1][..i] == stack[..i];
        i := i + 1;
      }
      assert stack[..i] == stack;
    }

    /** The loop body of `solve`: search on with the row of `row`, a node of the covered column `col`. */
    method TryRow(row: int, ghost col: int, ghost m: Matrix, ghost d: Decoding, ghost st: Torus) returns (ok: bool)
      requires WellFormed(m, st) && Decodes(m, d) && m.root == root && col in st.cols
      requires nodes[..] == Covered(m, st, col).s && inout.Length == 81
      requires forall x :: x in stack ==> x in m.place
      requires row in m.place && m.colOf[row] == col && m.rows[RowOf(m, row)] != []
      requires RowCols(m, RowOf(m, row)) <= st.cols.Keys && col in RowCols(m, RowOf(m, row))
      modifies this`stack, nodes, inout
      ensures !ok ==> nodes[..] == old(nodes[..]) && stack == old(stack) && inout[..] == old(inout[..])
      ensures !ok ==> forall rs :: !ExactCover(m, st.cols.Keys - RowCols(m, RowOf(m, row)), rs)
      ensures ok ==> old(stack) <= stack && (forall x :: x in stack ==> x in m.place)
      ensures ok ==> ExactCover(m, st.cols.Keys, RowsOf(m, stack[|old(stack)|..]))
      ensures ok ==> inout[..] == Fill(m, d, old(inout[..]), stack)
      decreases st.cols.Keys, 0
    {
      hide WellFormed, Decodes, Static, Journey, ExactCover, Covered, Fill, RowCols, RowWalk, Mates, RowOf;
      StaticOf(m, st);
      ghost var live, stack0, st1 := st.cols.Keys, stack, Covered(m, st, col);
      CoverKeepsWellFormed(m, st, col);
      stack := stack + [row];
      ghost var zs, ss, u := MatesJourney(m, st1, row);
      assert u.cols.Keys == live - RowCols(m, RowOf(m, row));
      CoverMates(row, Mates(m, row), zs, ss);
      ok := Solve(m, d, u);
      if ok {
        ghost var more := stack[|stack0| + 1..];
        assert stack[|stack0|..] == [row] + more;
        RowFound(m, live, row, more);
        return true;
      }
      stack := stack[..|stack| - 1];
      UncoverMates(row, Mates(m, row), zs, ss);
    }

    /**
      `solve` on any well-formed torus.  When it fails nothing has changed and no set of
      rows covers the live columns exactly; when it succeeds the rows it added to the
      stack do, and the board shows all rows of the stack.
    */
    method Solve(ghost m: Matrix, ghost d: Decoding, ghost st: Torus) returns (ok: bool)
      requires WellFormed(m, st) && Decodes(m, d) && m.root == root
      requires nodes[..] == st.s && inout.Length == 81
      requires forall x :: x in stack ==> x in m.place
      modifies this`stack, nodes, inout
      ensures !ok ==> nodes[..] == st.s && stack == old(stack) && inout[..] == old(inout[..])
      ensures !ok ==> forall rs :: !ExactCover(m, st.cols.Keys, rs)
      ensures ok ==> old(stack) <= stack && (forall x :: x in stack ==> x in m.place)
      ensures ok ==> ExactCover(m, st.cols.Keys, RowsOf(m, stack[|old(stack)|..]))
      ensures ok ==> inout[..] == Fill(m, d, old(inout[..]), stack)
      decreases st.cols.Keys, 1
    {
      hide WellFormed, Decodes, Static, HeadsWalk, Journey, TripOk, ExactCover, Covered, Fill, RowCols,
           ColumnOk, VRing, HRing, RowWalk, Mates, RowOf, Stage, CoverList, MateCols;
      HeaderWalk(m, st);
      StaticOf(m, st);
      ghost var live, stack0, board := st.cols.Keys, stack, inout[..];
      if nodes[root].left == root {
        WriteBoard(m, d, st);
        NoColumnsNoRows(m);
        assert stack[|stack0|..] == [] && RowsOf(m, stack[|stack0|..]) == {};
        return true;
      }
      var col := GetMinColumn(st.heads);
      ghost var st1, q := Covered(m, st, col), st.cols[col];
      ghost var z := CoverTrip(m, st, col);
      CoverKeepsWellFormed(m, st, col);
      CoveredWalk(m, st, col);
      Cover(col, z);
      ghost var i := 0;
      var row := nodes[col].down;
      while row != col
        invariant 0 <= i <= |q| && row == if i < |q| then q[i] else col
        invariant nodes[..] == st1.s && stack == stack0 && inout[..] == board
        invariant forall k, rs :: 0 <= k < i && ExactCover(m, live, rs) ==> q[k] in m.place && RowOf(m, q[k]) !in rs
        decreases |q| - i
      {
        LiveRow(m, st, col, i);
        ok := TryRow(row, col, m, d, st);
        if ok {
          return true;
        }
        RowTried(m, live, RowOf(m, row));
        row := nodes[row].down;
        i := i + 1;
      }
      Uncover(col, z);
      NoRowNoCover(m, st, col);
      return false;
    }
  }

  // ------------------------------------------- exact covers and solutions

  ghost function Pairs(d: Decoding, rs: set<int>): set<(int, int)>
    requires |d.cell| == |d.val| && forall r :: r in rs ==> 0 <= r < |d.cell|
  {
    set r | r in rs :: (d.cell[r], d.val[r])
  }

  ghost function RowsFor(d: Decoding, ch: set<(int, int)>): set<int>
    requires |d.cell| == |d.val|
  {
    set r | 0 <= r < |d.cell| && (d.cell[r], d.val[r]) in ch
  }

  /** A name of row `r` is filed under a column of row `r`, and under no other row's columns unless shared. */
  lemma {:induction false} NameInRowCols(m: Matrix, d: Decoding, colAt: seq<int>, w: map<int, seq<int>>, p: seq<int>,
                                         r: int, n: int)
    requires Encodes(m, d, colAt, w, p) && 0 <= r < |m.rows| && 0 <= n < 400 && IsColumn(p, n)
    ensures colAt[n] in RowCols(m, r) <==> n in RowNames(d.cell[r], d.val[r])
  {
    hide Static, HasDigit, Coord, RowDecodes, RowCols, ColsOf, NamesOf, RowNames;
    var i, v := d.cell[r], d.val[r];
    assert RowFits(m, r, i, v, colAt, p);
    CandidateColumns(colAt, w, p, i, v);
    FiledUnder(colAt, w, p, i, v, n);
  }

  lemma {:induction false} FiledUnder(colAt: seq<int>, w: map<int, seq<int>>, p: seq<int>, i: int, v: int, n: int)
    requires Filed(colAt, w) && ColumnsFor(colAt, p) && 0 <= i < 81 && 1 <= v <= 9 && 0 <= n < 400 && IsColumn(p, n)
    requires forall k :: k in NamesOf(i, v) ==> 0 <= k < 400 && colAt[k] in w
    ensures colAt[n] in ColsOf(colAt, i, v) <==> n in RowNames(i, v)
  {
    hide HasDigit, Coord, IsColumn;
    var ns, cs := NamesOf(i, v), ColsOf(colAt, i, v);
    forall k | 0 <= k < 4
      ensures cs[k] == colAt[n] <==> ns[k] == n
    {
      assert ns[k] in ns && cs[k] == colAt[ns[k]];
    }
  }

  lemma {:induction false} RowNamesAreColumns(m: Matrix, d: Decoding, colAt: seq<int>, w: map<int, seq<int>>,
                                              p: seq<int>, r: int)
    requires Encodes(m, d, colAt, w, p) && 0 <= r < |m.rows|
    ensures forall n :: n in RowNames(d.cell[r], d.val[r]) ==> 0 <= n < 400 && IsColumn(p, n)
    ensures RowCols(m, r) <= w.Keys && m.rows[r] != []
  {
    var i, v := d.cell[r], d.val[r];
    assert RowFits(m, r, i, v, colAt, p);
    CandidateColumns(colAt, w, p, i, v);
    CandidateName(p, i, v, 1);
    CandidateName(p, i, v, 2);
    CandidateName(p, i, v, 3);
    hide Static, HasDigit, Coord;
    assert IsColumn(p, i);
    forall c | c in RowCols(m, r)
      ensures c in w.Keys
    {
      assert c in ColsOf(colAt, i, v);
    }
  }

  lemma {:induction false} CoverToNames(m: Matrix, d: Decoding, colAt: seq<int>, w: map<int, seq<int>>, p: seq<int>,
                                        rs: set<int>)
    requires Encodes(m, d, colAt, w, p) && ExactCover(m, w.Keys, rs)
    ensures NameCover(p, Pairs(d, rs))
  {
    hide Static, HasDigit, Coord, RowNames, RowCols, IsColumn, ColsOf, RowDecodes;
    var ch := Pairs(d, rs);
    forall a | a in ch
      ensures Candidate(p, a.0, a.1)
    {
      var r :| r in rs && a == (d.cell[r], d.val[r]);
      assert RowFits(m, r, d.cell[r], d.val[r], colAt, p);
    }
    forall n | IsColumn(p, n)
      ensures exists a :: a in ch && n in RowNames(a.0, a.1)
    {
      ColumnBound(p, n);
      assert colAt[n] in w.Keys;
      var r :| r in rs && colAt[n] in RowCols(m, r);
      NameInRowCols(m, d, colAt, w, p, r, n);
      assert (d.cell[r], d.val[r]) in ch;
    }
    forall a, b | a in ch && b in ch && a != b
      ensures RowNames(a.0, a.1) !! RowNames(b.0, b.1)
    {
      var r :| r in rs && a == (d.cell[r], d.val[r]);
      var q :| q in rs && b == (d.cell[q], d.val[q]);
      RowNamesAreColumns(m, d, colAt, w, p, r);
      forall n | n in RowNames(a.0, a.1)
        ensures n !in RowNames(b.0, b.1)
      {
        NameInRowCols(m, d, colAt, w, p, r, n);
        NameInRowCols(m, d, colAt, w, p, q, n);
      }
    }
  }

  lemma ColumnBound(p: seq<int>, n: int)
    requires |p| == 81 && IsColumn(p, n)
    ensures 0 <= n < 400
  {
  }

  lemma {:induction false} NamesToCover(m: Matrix, d: Decoding, colAt: seq<int>, w: map<int, seq<int>>, p: seq<int>,
                                        ch: set<(int, int)>)
    requires Encodes(m, d, colAt, w, p) && NameCover(p, ch)
    ensures ExactCover(m, w.Keys, RowsFor(d, ch))
  {
    hide Static, HasDigit, Coord, RowNames, RowCols, IsColumn, ColsOf, RowDecodes, Candidate;
    var rs := RowsFor(d, ch);
    forall r | r in rs
      ensures 0 <= r < |m.rows| && m.rows[r] != [] && RowCols(m, r) <= w.Keys
    {
      RowNamesAreColumns(m, d, colAt, w, p, r);
    }
    forall c | c in w.Keys
      ensures exists r :: r in rs && c in RowCols(m, r)
    {
      var n :| 0 <= n < 400 && colAt[n] == c;
      var a :| a in ch && n in RowNames(a.0, a.1);
      assert Candidate(p, a.0, a.1) && Coded(d, a.0, a.1);
      var r :| 0 <= r < |d.cell| && d.cell[r] == a.0 && d.val[r] == a.1;
      NameInRowCols(m, d, colAt, w, p, r, n);
      assert (d.cell[r], d.val[r]) == a && r in rs;
    }
    forall r, q | r in rs && q in rs && r != q
      ensures RowCols(m, r) !! RowCols(m, q)
    {
      RowNamesAreColumns(m, d, colAt, w, p, r);
      assert (d.cell[r], d.val[r]) != (d.cell[q], d.val[q]);
      forall c | c in RowCols(m, r)
        ensures c !in RowCols(m, q)
      {
        assert c in w;
        var n :| 0 <= n < 400 && colAt[n] == c;
        NameInRowCols(m, d, colAt, w, p, r, n);
        NameInRowCols(m, d, colAt, w, p, q, n);
      }
    }
  }

  /** The filled board shows the digit of every row chosen, provided no cell is chosen twice. */
  lemma {:induction false} FillShows(m: Matrix, d: Decoding, board: seq<int>, xs: seq<int>)
    requires Decodes(m, d) && |board| == 81 && forall x :: x in xs ==> x in m.place
    requires forall x, y :: x in xs && y in xs && d.cell[RowOf(m, x)] == d.cell[RowOf(m, y)] ==>
               RowOf(m, x) == RowOf(m, y)
    ensures forall x :: x in xs ==> Fill(m, d, board, xs)[d.cell[RowOf(m, x)]] == d.val[RowOf(m, x)]
    ensures forall i :: 0 <= i < 81 && (forall x :: x in xs ==> d.cell[RowOf(m, x)] != i) ==>
              Fill(m, d, board, xs)[i] == board[i]
  {
    hide Static, RowDecodes;
    if xs != [] {
      var p, z := xs[..|xs| - 1], xs[|xs| - 1];
      assert xs == p + [z];
      assert forall x :: x in xs <==> x in p || x == z;
      FillShows(m, d, board, p);
    }
  }

  lemma {:induction false} FillIsShown(m: Matrix, d: Decoding, colAt: seq<int>, w: map<int, seq<int>>, p: seq<int>,
                                       xs: seq<int>)
    requires Encodes(m, d, colAt, w, p) && Board(p) && Decodes(m, d) && forall x :: x in xs ==> x in m.place
    requires ExactCover(m, w.Keys, RowsOf(m, xs))
    ensures Shows(p, Pairs(d, RowsOf(m, xs)), Fill(m, d, p, xs))
  {
    hide Static, RowDecodes, Coord, ExactCover, Fill, Encodes, RowOf, HasDigit, IsColumn;
    var rs := RowsOf(m, xs);
    CoverToNames(m, d, colAt, w, p, rs);
    var ch := Pairs(d, rs);
    forall x, y | x in xs && y in xs && d.cell[RowOf(m, x)] == d.cell[RowOf(m, y)]
      ensures RowOf(m, x) == RowOf(m, y)
    {
      var r, q := RowOf(m, x), RowOf(m, y);
      assert r in rs && q in rs;
      var a, b := (d.cell[r], d.val[r]), (d.cell[q], d.val[q]);
      assert a in ch && b in ch;
      assert a.0 in RowNames(a.0, a.1) && a.0 in RowNames(b.0, b.1);
      assert a == b;
      OneRowPerPair(m, d, colAt, w, p, r, q);
    }
    FillShows(m, d, p, xs);
    var g := Fill(m, d, p, xs);
    forall a | a in ch
      ensures 0 <= a.0 < CELLS && g[a.0] == a.1
    {
      var r :| r in rs && a == (d.cell[r], d.val[r]);
      var x :| x in xs && r == RowOf(m, x);
    }
    forall i | 0 <= i < CELLS && p[i] != 0
      ensures g[i] == p[i]
    {
      forall x | x in xs
        ensures d.cell[RowOf(m, x)] != i
      {
        var r := RowOf(m, x);
        assert r in rs && (d.cell[r], d.val[r]) in ch;
        assert Candidate(p, d.cell[r], d.val[r]);
      }
    }
  }

  lemma OneRowPerPair(m: Matrix, d: Decoding, colAt: seq<int>, w: map<int, seq<int>>, p: seq<int>, r: int, q: int)
    requires Encodes(m, d, colAt, w, p) && 0 <= r < |m.rows| && 0 <= q < |m.rows|
    requires d.cell[r] == d.cell[q] && d.val[r] == d.val[q]
    ensures r == q
  {
    hide RowFits;
  }

  lemma EncodesDecodes(m: Matrix, d: Decoding, colAt: seq<int>, w: map<int, seq<int>>, p: seq<int>)
    requires Encodes(m, d, colAt, w, p)
    ensures Decodes(m, d)
  {
    hide Static, RowDecodes, HasDigit, RowCols;
    forall r | 0 <= r < |m.rows|
      ensures 0 <= d.cell[r] < 81 && RowDecodes(m, r, d.cell[r], d.val[r])
    {
      assert RowFits(m, r, d.cell[r], d.val[r], colAt, p);
    }
  }

  // ---------------------------------------------------------- solveSudoku

  const NO_SOLUTION := "NoSolution"

  ghost predicate Digits81(s: string) {
    |s| == 81 && forall i :: 0 <= i < 81 ==> '0' <= s[i] <= '9'
  }

  function Values(s: string): seq<int> {
    seq(|s|, i requires 0 <= i < |s| => s[i] as int - '0' as int)
  }

  /** `sol` is a solved grid that keeps every clue of `puzzle`. */
  ghost predicate Solution(puzzle: string, sol: string) {
    Digits81(puzzle) && Digits81(sol) && Solved(Values(sol)) && Extends(Values(puzzle), Values(sol))
  }

  /** Laying out the board and searching decides whether it has a solution, and leaves one on it. */
  method SolveBoard(board: array<int>) returns (ok: bool)
    requires Board(board[..])
    modifies board
    ensures ok ==> Solved(board[..]) && Extends(old(board[..]), board[..])
    ensures !ok ==> forall g :: Solved(g) ==> !Extends(old(board[..]), g)
  {
    ghost var p := board[..];
    assert |p| == 81;
    hide WellFormed, Encodes, Decodes, Solved, Board, ExactCover, NameCover, Shows, Fill, RowOf, Static;
    var s := new Solver(board);
    ghost var st, m, d, colAt := Torus(s.nodes[..], s.heads, s.w), s.mat, s.code, s.columns[..];
    EncodesDecodes(m, d, colAt, st.cols, p);
    StaticOf(m, st);
    ok := s.Solve(m, d, st);
    if ok {
      assert s.stack[0..] == s.stack;
      FoundIsSolution(m, d, colAt, st.cols, p, s.stack);
    } else {
      NoneIsNoSolution(m, d, colAt, st.cols, p);
    }
  }

  lemma {:induction false} FoundIsSolution(m: Matrix, d: Decoding, colAt: seq<int>, w: map<int, seq<int>>,
                                           p: seq<int>, xs: seq<int>)
    requires Encodes(m, d, colAt, w, p) && Board(p) && Decodes(m, d) && forall x :: x in xs ==> x in m.place
    requires ExactCover(m, w.Keys, RowsOf(m, xs))
    ensures Solved(Fill(m, d, p, xs)) && Extends(p, Fill(m, d, p, xs))
  {
    hide Static, RowDecodes, ExactCover, NameCover, Shows, Fill, Solved, Encodes;
    FillIsShown(m, d, colAt, w, p, xs);
    CoverToNames(m, d, colAt, w, p, RowsOf(m, xs));
    CoverIsSolution(p, Pairs(d, RowsOf(m, xs)), Fill(m, d, p, xs));
  }

  lemma {:induction false} NoneIsNoSolution(m: Matrix, d: Decoding, colAt: seq<int>, w: map<int, seq<int>>, p: seq<int>)
    requires Encodes(m, d, colAt, w, p) && Board(p) && forall rs :: !ExactCover(m, w.Keys, rs)
    ensures forall g :: Solved(g) ==> !Extends(p, g)
  {
    hide Static, RowDecodes, ExactCover, NameCover, RowsFit, Filed, ColumnsFor;
    forall g | Solved(g)
      ensures !Extends(p, g)
    {
      if Extends(p, g) {
        SolutionIsCover(p, g);
        NamesToCover(m, d, colAt, w, p, Choices(p, g));
      }
    }
  }

  /**
    For every string of 81 characters, the answer is a solution of the puzzle if it has one and
    "NoSolution" exactly if it has none.
  */
  method SolveSudoku(puzzle: string) returns (result: string)
    requires |puzzle| == CELLS
    ensures Solution(puzzle, result) || result == NO_SOLUTION
    ensures result == NO_SOLUTION <==> forall sol :: !Solution(puzzle, sol)
  {
    hide Solved, Extends;
    result := NO_SOLUTION;
    var board := new int[CELLS](_ => 0);
    var valid := true;
    var i := 0;
    while i < CELLS
      invariant 0 <= i <= CELLS
      invariant forall k :: 0 <= k < i ==> board[k] == puzzle[k] as int - '0' as int
      invariant valid <==> forall k :: 0 <= k < i ==> 0 <= board[k] <= 9
    {
      board[i] := puzzle[i] as int - '0' as int;
      valid := valid && 0 <= board[i] <= 9;
      i := i + 1;
    }
    ghost var p := board[..];
    ValuesOf(puzzle, p);
    if valid {
      var ok := SolveBoard(board);
      if ok {
        result := "";
        SolvedBoard(board[..]);
        i := 0;
        while i < CELLS
          invariant 0 <= i <= CELLS && |result| == i
          invariant forall k :: 0 <= k < i ==> result[k] as int == board[k] + '0' as int
        {
          assert 0 <= board[..][i] <= 9;
          result := result + [(board[i] + '0' as int) as char];
          i := i + 1;
        }
        ValuesOf(result, board[..]);
        assert Solution(puzzle, result);
      }
    }
  }

  lemma ValuesOf(s: string, b: seq<int>)
    requires |s| == |b| == 81 && forall k :: 0 <= k < 81 ==> s[k] as int == b[k] + '0' as int
    ensures Values(s) == b
    ensures Digits81(s) <==> Board(b)
  {
    assert forall k :: 0 <= k < 81 ==> ('0' <= s[k] <= '9' <==> 0 <= b[k] <= 9);
  }

  lemma SolvedBoard(g: seq<int>)
    requires Solved(g)
    ensures Board(g)
  {
  }
}
