/**
  The link algebra of the dancing-links solver.

  Nodes live in one array and refer to each other by index.  This module works
  on the array's contents as a value, `seq<Node>`, for an arbitrary sparse 0/1
  matrix: it defines the single-node steps of `cover` and `uncover`, the
  toroidal well-formedness they rely on, and proves that each step keeps the
  rings and that undoing steps in reverse order restores every link and size.
*/
module DancingLinks {

  /** `struct Node`; pointers are indices into the node array. */
  datatype Node = Node(left: int, right: int, up: int, down: int, col: int, name: int, size: int)

  type Nodes = seq<Node>

  ghost predicate Distinct<T>(q: seq<T>) {
    forall i, j :: 0 <= i < j < |q| ==> q[i] != q[j]
  }

  ghost predicate Within(s: Nodes, q: seq<int>) {
    forall i :: 0 <= i < |q| ==> 0 <= q[i] < |s|
  }

  function Succ(n: int, i: int): int {
    if i + 1 < n then i + 1 else 0
  }

  function Pred(n: int, i: int): int {
    if i > 0 then i - 1 else n - 1
  }

  /** `q` lists a vertical ring in the order of `down`; `up` is its inverse. */
  ghost predicate VRing(s: Nodes, q: seq<int>) {
    && |q| > 0 && Distinct(q) && Within(s, q)
    && (forall i {:trigger s[q[i]]} :: 0 <= i < |q| ==>
         s[q[i]].down == q[Succ(|q|, i)] && s[q[i]].up == q[Pred(|q|, i)])
  }

  /** `q` lists a horizontal ring in the order of `right`; `left` is its inverse. */
  ghost predicate HRing(s: Nodes, q: seq<int>) {
    && |q| > 0 && Distinct(q) && Within(s, q)
    && (forall i {:trigger s[q[i]]} :: 0 <= i < |q| ==>
         s[q[i]].right == q[Succ(|q|, i)] && s[q[i]].left == q[Pred(|q|, i)])
  }

  function Cut<T>(q: seq<T>, k: int): seq<T>
    requires 0 <= k < |q|
  {
    q[..k] + q[k + 1..]
  }

  // ---------------------------------------------------------------- steps

  /** The loop body of `cover`: take node `j` out of its column's ring. */
  function Hide(s: Nodes, j: int): Nodes
    requires Linked(s, j)
  {
    var t := s[s[j].down := s[s[j].down].(up := s[j].up)];
    var u := t[t[j].up := t[t[j].up].(down := t[j].down)];
    u[u[j].col := u[u[j].col].(size := u[u[j].col].size - 1)]
  }

  /** The loop body of `uncover`: put node `j` back where its own links say. */
  function Unhide(s: Nodes, j: int): Nodes
    requires Indexed(s, j)
  {
    var t := s[s[j].col := s[s[j].col].(size := s[s[j].col].size + 1)];
    var u := t[t[j].down := t[t[j].down].(up := j)];
    u[u[j].up := u[u[j].up].(down := j)]
  }

  /** The first two statements of `cover`: take header `c` out of the header ring. */
  function Unlink(s: Nodes, c: int): Nodes
    requires 0 <= c < |s| && 0 <= s[c].left < |s| && 0 <= s[c].right < |s|
  {
    var t := s[s[c].right := s[s[c].right].(left := s[c].left)];
    t[s[c].left := t[s[c].left].(right := s[c].right)]
  }

  /** The last two statements of `uncover`. */
  function Relink(s: Nodes, c: int): Nodes
    requires 0 <= c < |s| && 0 <= s[c].left < |s| && 0 <= s[c].right < |s|
  {
    var t := s[s[c].right := s[s[c].right].(left := c)];
    t[s[c].left := t[s[c].left].(right := c)]
  }

  predicate Indexed(s: Nodes, j: int) {
    && 0 <= j < |s| && 0 <= s[j].down < |s| && 0 <= s[j].up < |s| && 0 <= s[j].col < |s|
  }

  /** `j` sits in a ring: both vertical neighbours point back at it. */
  predicate Linked(s: Nodes, j: int) {
    Indexed(s, j) && s[s[j].down].up == j && s[s[j].up].down == j
  }

  /** Everything `cover` and `uncover` leave alone outside the header ring. */
  ghost predicate SameRows(s: Nodes, t: Nodes) {
    && |s| == |t|
    && (forall i :: 0 <= i < |s| ==>
         t[i].left == s[i].left && t[i].right == s[i].right && t[i].col == s[i].col && t[i].name == s[i].name)
  }

  lemma HideThenUnhide(s: Nodes, j: int)
    requires Linked(s, j)
    ensures Indexed(Hide(s, j), j) && Unhide(Hide(s, j), j) == s
    ensures SameRows(s, Hide(s, j))
  {
  }

  lemma UnlinkThenRelink(s: Nodes, c: int)
    requires 0 <= c < |s| && 0 <= s[c].left < |s| && 0 <= s[c].right < |s|
    requires s[s[c].left].right == c && s[s[c].right].left == c
    ensures var t := Unlink(s, c);
            |t| == |s| && t[c].left == s[c].left && t[c].right == s[c].right && Relink(t, c) == s
  {
  }

  // ------------------------------------------------- one step on the rings

  /** What `Hide` does to each vertical link, read off without the order of its writes. */
  lemma HideLinks(s: Nodes, j: int)
    requires Linked(s, j)
    ensures |Hide(s, j)| == |s|
    ensures forall i :: 0 <= i < |s| ==>
              && Hide(s, j)[i].up == (if i == s[j].down then s[j].up else s[i].up)
              && Hide(s, j)[i].down == (if i == s[j].up then s[j].down else s[i].down)
              && Hide(s, j)[i].size == (if i == s[j].col then s[i].size - 1 else s[i].size)
  {
  }

  lemma CutAt<T>(q: seq<T>, k: int, i: int)
    requires 0 <= k < |q| && 0 <= i < |q| - 1
    ensures Cut(q, k)[i] == q[if i < k then i else i + 1]
  {
  }

  lemma CutRing<T>(q: seq<T>, k: int, i: int)
    requires 0 < k < |q| && 0 <= i < |q| - 1
    ensures var n := |q|; var i' := if i < k then i else i + 1;
            && Cut(q, k)[Succ(n - 1, i)] == q[if Succ(n, i') == k then Succ(n, k) else Succ(n, i')]
            && Cut(q, k)[Pred(n - 1, i)] == q[if Pred(n, i') == k then Pred(n, k) else Pred(n, i')]
  {
  }

  lemma {:induction false} CutOutOfRing(s: Nodes, t: Nodes, q: seq<int>, k: int)
    requires VRing(s, q) && 0 < k < |q| && |t| == |s|
    requires forall i :: 0 <= i < |s| ==>
              && t[i].up == (if i == s[q[k]].down then s[q[k]].up else s[i].up)
              && t[i].down == (if i == s[q[k]].up then s[q[k]].down else s[i].down)
    ensures VRing(t, Cut(q, k))
  {
    var p := Cut(q, k);
    CutDistinct(q, k);
    forall i {:trigger t[p[i]]} | 0 <= i < |p|
      ensures t[p[i]].down == p[Succ(|p|, i)] && t[p[i]].up == p[Pred(|p|, i)]
    {
      CutSlot(s, t, q, k, i);
    }
  }

  lemma CutDistinct<T>(q: seq<T>, k: int)
    requires Distinct(q) && 0 <= k < |q|
    ensures Distinct(Cut(q, k))
  {
  }

  lemma CutSlot(s: Nodes, t: Nodes, q: seq<int>, k: int, i: int)
    requires VRing(s, q) && 0 < k < |q| && 0 <= i < |q| - 1 && |t| == |s|
    requires forall i :: 0 <= i < |s| ==>
              && t[i].up == (if i == s[q[k]].down then s[q[k]].up else s[i].up)
              && t[i].down == (if i == s[q[k]].up then s[q[k]].down else s[i].down)
    ensures 0 <= Cut(q, k)[i] < |t|
    ensures t[Cut(q, k)[i]].down == Cut(q, k)[Succ(|q| - 1, i)] && t[Cut(q, k)[i]].up == Cut(q, k)[Pred(|q| - 1, i)]
  {
    CutAt(q, k, i);
    CutRing(q, k, i);
    RingSlot(s, q, k, k);
    RingSlot(s, q, if i < k then i else i + 1, k);
  }

  lemma RingSlot(s: Nodes, q: seq<int>, i: int, k: int)
    requires VRing(s, q) && 0 <= i < |q| && 0 <= k < |q|
    ensures s[q[i]].down == q[Succ(|q|, i)] && s[q[i]].up == q[Pred(|q|, i)]
    ensures q[i] == q[Pred(|q|, k)] <==> Succ(|q|, i) == k
    ensures q[i] == q[Succ(|q|, k)] <==> Pred(|q|, i) == k
  {
    assert s[q[i]].down == q[Succ(|q|, i)];
    assert s[q[k]].down == q[Succ(|q|, k)];
  }

  /** The same nodes with rows and columns exchanged. */
  ghost function Turn(s: Nodes): Nodes {
    seq(|s|, i requires 0 <= i < |s| =>
      s[i].(left := s[i].up, right := s[i].down, up := s[i].left, down := s[i].right))
  }

  lemma TurnRing(s: Nodes, q: seq<int>)
    ensures HRing(s, q) <==> VRing(Turn(s), q)
  {
    assert forall i :: 0 <= i < |q| && 0 <= q[i] < |s| ==>
      Turn(s)[q[i]].down == s[q[i]].right && Turn(s)[q[i]].up == s[q[i]].left;
  }

  lemma {:induction false} UnlinkRing(s: Nodes, q: seq<int>, k: int)
    requires HRing(s, q) && 0 < k < |q|
    ensures 0 <= s[q[k]].left < |s| && 0 <= s[q[k]].right < |s|
    ensures s[s[q[k]].left].right == q[k] && s[s[q[k]].right].left == q[k]
    ensures HRing(Unlink(s, q[k]), Cut(q, k))
  {
    var t := Unlink(s, q[k]);
    TurnRing(s, q);
    TurnRing(t, Cut(q, k));
    RingSlot(Turn(s), q, k, k);
    RingSlot(Turn(s), q, Succ(|q|, k), k);
    RingSlot(Turn(s), q, Pred(|q|, k), k);
    CutOutOfRing(Turn(s), Turn(t), q, k);
  }

  // ------------------------------------------------------- lists of steps

  /** Hide the nodes of `l` from first to last. */
  ghost function HideAll(s: Nodes, l: seq<int>): Nodes
    requires CanHideAll(s, l)
    decreases |l|, 1
  {
    if l == [] then s else Hide(HideAll(s, l[..|l| - 1]), l[|l| - 1])
  }

  ghost predicate CanHideAll(s: Nodes, l: seq<int>)
    decreases |l|, 0
  {
    l != [] ==>
      CanHideAll(s, l[..|l| - 1]) && Linked(HideAll(s, l[..|l| - 1]), l[|l| - 1])
  }

  lemma {:induction false} HideAllSameRows(s: Nodes, l: seq<int>)
    requires CanHideAll(s, l)
    ensures SameRows(s, HideAll(s, l))
    decreases |l|
  {
    if l != [] {
      HideAllSameRows(s, l[..|l| - 1]);
      HideThenUnhide(HideAll(s, l[..|l| - 1]), l[|l| - 1]);
    }
  }

  // ----------------------------------------------------------- the matrix

  /**
    The fixed part of the structure: the nodes of each matrix row in ring order,
    where each node sits, the header of the column it belongs to, and its name.
  */
  datatype Matrix = Matrix(
    root: int, rows: seq<seq<int>>, place: map<int, (int, int)>, colOf: map<int, int>, name: map<int, int>)

  ghost predicate Static(m: Matrix) {
    && m.colOf.Keys == m.place.Keys == m.name.Keys
    && (forall x :: x in m.place ==>
         && 0 <= m.place[x].0 < |m.rows| && 0 <= m.place[x].1 < |m.rows[m.place[x].0]|
         && m.rows[m.place[x].0][m.place[x].1] == x)
    && (forall r, k :: 0 <= r < |m.rows| && 0 <= k < |m.rows[r]| ==>
         m.rows[r][k] in m.place && m.place[m.rows[r][k]] == (r, k))
    && (forall r, i, j :: 0 <= r < |m.rows| && 0 <= i < j < |m.rows[r]| ==>
         m.colOf[m.rows[r][i]] != m.colOf[m.rows[r][j]])
  }

  /** The columns in which row `r` has a one. */
  ghost function RowCols(m: Matrix, r: int): set<int>
    requires Static(m) && 0 <= r < |m.rows|
  {
    set k | 0 <= k < |m.rows[r]| :: m.colOf[m.rows[r][k]]
  }

  ghost function RowOf(m: Matrix, x: int): (r: int)
    requires Static(m) && x in m.place
    ensures 0 <= r < |m.rows| && x in m.rows[r]
  {
    m.place[x].0
  }

  /** The other nodes of `x`'s row, in the order in which `right` visits them. */
  ghost function Mates(m: Matrix, x: int): seq<int>
    requires Static(m) && x in m.place
  {
    var row := m.rows[m.place[x].0];
    row[m.place[x].1 + 1..] + row[..m.place[x].1]
  }

  /** The nodes `cover` hides when its column's ring holds `q`, in order. */
  ghost function HideList(m: Matrix, q: seq<int>): seq<int>
    requires Static(m) && forall x :: x in q ==> x in m.place
  {
    if q == [] then [] else
      assert q[|q| - 1] in q;
      HideList(m, q[..|q| - 1]) + Mates(m, q[|q| - 1])
  }

  lemma {:induction false} MatesAre(m: Matrix, x: int)
    requires Static(m) && x in m.place
    ensures Distinct(Mates(m, x))
    ensures forall y :: y in Mates(m, x) <==> y in m.place && y != x && RowOf(m, y) == RowOf(m, x)
  {
    var (r, k) := m.place[x];
    var row, l := m.rows[r], Mates(m, x);
    assert |l| == |row| - 1;
    forall i | 0 <= i < |l|
      ensures l[i] == row[Turned(|row|, k, i)] && m.place[l[i]] == (r, Turned(|row|, k, i)) && l[i] != x
    {
    }
    hide Mates;
    forall y | y in m.place && y != x && RowOf(m, y) == r
      ensures y in l
    {
      var i := m.place[y].1;
      assert l[if i > k then i - k - 1 else i + |row| - k - 1] == y;
    }
  }

  /** The place in its row of the `i`-th node to the right of place `k`. */
  ghost function Turned(n: int, k: int, i: int): int {
    if i < n - k - 1 then k + 1 + i else i - (n - k - 1)
  }

  lemma {:induction false} HideListAre(m: Matrix, q: seq<int>)
    requires Static(m) && forall x :: x in q ==> x in m.place
    ensures forall y :: y in HideList(m, q) <==> exists x :: x in q && y in Mates(m, x)
  {
    if q != [] {
      var p, z := q[..|q| - 1], q[|q| - 1];
      HideListAre(m, p);
      assert z in q;
      assert forall x :: x in q <==> x in p || x == z;
    }
  }

  /** The nodes of one column are in different rows, so no node is hidden twice. */
  lemma {:induction false} HideListDistinct(m: Matrix, q: seq<int>, c: int)
    requires Static(m) && Distinct(q) && forall x :: x in q ==> x in m.place && m.colOf[x] == c
    ensures Distinct(HideList(m, q))
    ensures forall y :: y in HideList(m, q) ==> y in m.place && m.colOf[y] != c
  {
    if q != [] {
      var p, z := q[..|q| - 1], q[|q| - 1];
      assert z in q;
      assert forall i :: 0 <= i < |p| ==> p[i] in q && p[i] != z;
      hide Mates;
      HideListDistinct(m, p, c);
      MatesAre(m, z);
      forall y | y in Mates(m, z)
        ensures m.colOf[y] != c && y !in HideList(m, p)
      {
        MateIsNew(m, p, z, y, c);
      }
      DistinctJoin(HideList(m, p), Mates(m, z));
      hide Static, Distinct;
    }
  }

  lemma DistinctJoin(a: seq<int>, b: seq<int>)
    requires Distinct(a) && Distinct(b) && forall y :: y in b ==> y !in a
    ensures Distinct(a + b)
  {
    forall i, j | 0 <= i < j < |a + b|
      ensures (a + b)[i] != (a + b)[j]
    {
      if i < |a| <= j {
        assert b[j - |a|] in b;
      }
    }
  }

  /** A mate of `z` is in another column, and is no mate of an earlier node of the column of `z`. */
  lemma {:induction false} MateIsNew(m: Matrix, p: seq<int>, z: int, y: int, c: int)
    requires Static(m) && (forall x :: x in p ==> x in m.place && m.colOf[x] == c && x != z)
    requires z in m.place && m.colOf[z] == c && y in Mates(m, z)
    ensures y in m.place && m.colOf[y] != c && y !in HideList(m, p)
  {
    hide Mates, HideList, RowCols;
    MatesAre(m, z);
    OneNodePerColumn(m, y, z);
    HideListAre(m, p);
    forall x | x in p
      ensures y !in Mates(m, x)
    {
      MatesAre(m, x);
      if RowOf(m, x) == RowOf(m, z) {
        OneNodePerColumn(m, x, z);
      }
    }
  }

  lemma OneNodePerColumn(m: Matrix, x: int, y: int)
    requires Static(m) && x in m.place && y in m.place && RowOf(m, x) == RowOf(m, y) && x != y
    ensures m.colOf[x] != m.colOf[y]
  {
    var r, i, j := m.place[x].0, m.place[x].1, m.place[y].1;
    assert m.rows[r][i] == x && m.rows[r][j] == y;
  }

  // ------------------------------------------------------- column contents

  ghost function Without(q: seq<int>, l: seq<int>): seq<int> {
    if q == [] then [] else
      Without(q[..|q| - 1], l) + if q[|q| - 1] in l then [] else [q[|q| - 1]]
  }

  lemma {:induction false} WithoutIs(q: seq<int>, l: seq<int>)
    ensures forall x :: x in Without(q, l) <==> x in q && x !in l
    ensures (forall x :: x in q ==> x !in l) ==> Without(q, l) == q
  {
    if q != [] {
      var p, z := q[..|q| - 1], q[|q| - 1];
      WithoutIs(p, l);
      assert q == p + [z];
      assert forall x :: x in q <==> x in p || x == z;
    }
  }

  lemma {:induction false} WithoutTwice(q: seq<int>, l: seq<int>, x: int)
    ensures Without(Without(q, l), [x]) == Without(q, l + [x])
  {
    if q != [] {
      var p, z := q[..|q| - 1], q[|q| - 1];
      WithoutTwice(p, l, x);
      var a := Without(p, l);
      if z !in l {
        assert (a + [z])[..|a + [z]| - 1] == a;
      } else {
        assert a + [] == a;
      }
    }
  }

  lemma {:induction false} WithoutOne(q: seq<int>, k: int)
    requires Distinct(q) && 0 <= k < |q|
    ensures Without(q, [q[k]]) == Cut(q, k)
  {
    var p, z := q[..|q| - 1], q[|q| - 1];
    assert q == p + [z];
    if k == |q| - 1 {
      assert z !in p;
      WithoutIs(p, [z]);
      assert q[..k] == p && q[k + 1..] == [];
    } else {
      WithoutOne(p, k);
      assert q[..k] == p[..k] && q[k + 1..] == p[k + 1..] + [z];
    }
  }

  ghost predicate ColumnOk(a: map<int, int>, s: Nodes, c: int, q: seq<int>)
  {
    && 0 <= c < |s| && c !in a && s[c].col == c
    && VRing(s, [c] + q) && s[c].size == |q|
    && (forall x :: x in q ==> x in a && a[x] == c && 0 <= x < |s| && s[x].col == c)
  }

  /** Each column `c` of `w` is a ring of its header and `w[c]`, and its `size` is right. */
  ghost predicate Columns(a: map<int, int>, s: Nodes, w: map<int, seq<int>>)
  {
    forall c :: c in w ==> ColumnOk(a, s, c, w[c])
  }

  ghost function Minus(w: map<int, seq<int>>, l: seq<int>): map<int, seq<int>> {
    map c | c in w :: Without(w[c], l)
  }

  /** `t` is `s` with `j` hidden, field by field. */
  ghost predicate Hidden(s: Nodes, t: Nodes, j: int)
    requires Indexed(s, j)
  {
    && SameRows(s, t)
    && (forall i :: 0 <= i < |s| ==>
         && t[i].up == (if i == s[j].down then s[j].up else s[i].up)
         && t[i].down == (if i == s[j].up then s[j].down else s[i].down)
         && t[i].size == (if i == s[j].col then s[i].size - 1 else s[i].size))
  }

  lemma HideIsHidden(s: Nodes, j: int)
    requires Linked(s, j)
    ensures Hidden(s, Hide(s, j), j)
  {
    HideLinks(s, j);
    HideThenUnhide(s, j);
  }

  lemma LinkedInRing(s: Nodes, f: seq<int>, k: int)
    requires VRing(s, f) && 0 <= k < |f| && 0 <= s[f[k]].col < |s|
    ensures Linked(s, f[k]) && s[f[k]].down in f && s[f[k]].up in f
  {
    RingSlot(s, f, k, k);
    RingSlot(s, f, Succ(|f|, k), k);
    RingSlot(s, f, Pred(|f|, k), k);
  }

  lemma TailDistinct(d: int, q: seq<int>)
    requires Distinct([d] + q)
    ensures Distinct(q) && d !in q
  {
    var f := [d] + q;
    forall i, j | 0 <= i < j < |q|
      ensures q[i] != q[j]
    {
      assert f[i + 1] == q[i] && f[j + 1] == q[j];
    }
    forall i | 0 <= i < |q|
      ensures q[i] != d
    {
      assert f[0] == d && f[i + 1] == q[i];
    }
  }

  lemma {:induction false} LinkedInColumn(a: map<int, int>, s: Nodes, d: int, q: seq<int>, x: int)
    requires ColumnOk(a, s, d, q) && x in q
    ensures Linked(s, x) && s[x].col == d && s[x].down in [d] + q && s[x].up in [d] + q
  {
    hide VRing, Linked;
    var f := [d] + q;
    var k :| 0 <= k < |q| && q[k] == x;
    assert f[k + 1] == x && 0 <= s[x].col < |s|;
    LinkedInRing(s, f, k + 1);
  }

  lemma {:induction false} HideInOwnRing(s: Nodes, t: Nodes, d: int, q: seq<int>, x: int)
    requires VRing(s, [d] + q) && x in q && Linked(s, x) && Hidden(s, t, x)
    ensures VRing(t, [d] + Without(q, [x])) && |Without(q, [x])| == |q| - 1
  {
    var k :| 0 <= k < |q| && q[k] == x;
    CutCons(d, q, k);
    CutOutOfRing(s, t, [d] + q, k + 1);
    TailDistinct(d, q);
    WithoutOne(q, k);
  }

  lemma CutCons(d: int, q: seq<int>, k: int)
    requires 0 <= k < |q|
    ensures ([d] + q)[k + 1] == q[k] && Cut([d] + q, k + 1) == [d] + Cut(q, k)
  {
    assert ([d] + q)[..k + 1] == [d] + q[..k] && ([d] + q)[k + 2..] == q[k + 1..];
  }

  lemma {:induction false} HideInOwnColumn(a: map<int, int>, s: Nodes, t: Nodes, d: int, q: seq<int>, x: int)
    requires ColumnOk(a, s, d, q) && x in q && Linked(s, x) && Hidden(s, t, x)
    ensures ColumnOk(a, t, d, Without(q, [x]))
  {
    HideInOwnRing(s, t, d, q, x);
    WithoutIs(q, [x]);
  }

  lemma {:induction false} HideInOtherColumn(a: map<int, int>, s: Nodes, t: Nodes, e: int, q: seq<int>, x: int)
    requires ColumnOk(a, s, e, q) && Linked(s, x) && Hidden(s, t, x)
    requires s[x].col != e && s[s[x].down].col != e && s[s[x].up].col != e
    ensures ColumnOk(a, t, e, q)
  {
    var f := [e] + q;
    assert forall y :: y in f ==> 0 <= y < |s| && s[y].col == e;
    forall i | 0 <= i < |f|
      ensures t[f[i]].down == s[f[i]].down && t[f[i]].up == s[f[i]].up
    {
      assert f[i] in f;
    }
  }

  /** Hiding one node removes it from its column and touches no other column. */
  lemma {:induction false} HideKeepsColumns(a: map<int, int>, s: Nodes, w: map<int, seq<int>>, x: int)
    requires Columns(a, s, w)
    requires x in a && a[x] in w && x in w[a[x]]
    ensures Linked(s, x)
    ensures Columns(a, Hide(s, x), Minus(w, [x]))
  {
    var d := a[x];
    LinkedInColumn(a, s, d, w[d], x);
    HideIsHidden(s, x);
    HiddenKeepsColumns(a, s, Hide(s, x), w, x);
  }

  lemma {:induction false} HiddenKeepsColumns(a: map<int, int>, s: Nodes, t: Nodes, w: map<int, seq<int>>, x: int)
    requires Columns(a, s, w)
    requires x in a && a[x] in w && x in w[a[x]]
    requires Linked(s, x) && Hidden(s, t, x)
    ensures Columns(a, t, Minus(w, [x]))
  {
    hide VRing;
    var d := a[x];
    LinkedInColumn(a, s, d, w[d], x);
    assert forall y :: y in [d] + w[d] ==> s[y].col == d;
    forall e | e in w
      ensures ColumnOk(a, t, e, Without(w[e], [x]))
    {
      assert ColumnOk(a, s, e, w[e]);
      if e == d {
        HideInOwnColumn(a, s, t, d, w[d], x);
      } else {
        HideInOtherColumn(a, s, t, e, w[e], x);
        assert x !in w[e];
        WithoutIs(w[e], [x]);
      }
    }
  }

  /** Hiding a list of distinct live nodes removes exactly those nodes. */
  lemma {:induction false} HideAllKeepsColumns(a: map<int, int>, s: Nodes, w: map<int, seq<int>>, l: seq<int>)
    requires Columns(a, s, w) && Distinct(l)
    requires forall x :: x in l ==> x in a && a[x] in w && x in w[a[x]]
    ensures CanHideAll(s, l)
    ensures Columns(a, HideAll(s, l), Minus(w, l))
    decreases |l|
  {
    if l == [] {
      MinusNone(w);
    } else {
      var p, z := l[..|l| - 1], l[|l| - 1];
      assert l == p + [z] && z in l && z !in p;
      assert forall x :: x in p ==> x in l;
      HideAllKeepsColumns(a, s, w, p);
      WithoutIs(w[a[z]], p);
      HideKeepsColumns(a, HideAll(s, p), Minus(w, p), z);
      MinusTwice(w, p, z);
    }
  }

  lemma MinusTwice(w: map<int, seq<int>>, l: seq<int>, x: int)
    ensures Minus(Minus(w, l), [x]) == Minus(w, l + [x])
  {
    forall c | c in w
      ensures Minus(Minus(w, l), [x])[c] == Minus(w, l + [x])[c]
    {
      WithoutTwice(w[c], l, x);
    }
  }

  lemma MinusNone(w: map<int, seq<int>>)
    ensures Minus(w, []) == w
  {
    forall c | c in w
      ensures Without(w[c], []) == w[c]
    {
      WithoutIs(w[c], []);
    }
  }

  // ------------------------------------------------------------ the torus

  /** The node array, the header ring after the root, and each live column's nodes. */
  datatype Torus = Torus(s: Nodes, heads: seq<int>, cols: map<int, seq<int>>)

  /**
    The toroidal invariant: the header ring holds the live columns, every matrix
    row is a ring, every live column is a ring whose size is counted, and a node
    is in its column's ring exactly when all columns of its row are live.
  */
  ghost predicate WellFormed(m: Matrix, st: Torus) {
    && Static(m) && m.root !in m.colOf && m.root !in st.cols
    && HRing(st.s, [m.root] + st.heads)
    && (forall c :: c in st.heads <==> c in st.cols)
    && Columns(m.colOf, st.s, st.cols)
    && RowRings(m, st.s)
    && Fields(m, st.s)
    && LiveNodes(m, st.cols)
  }

  lemma StaticOf(m: Matrix, st: Torus)
    requires WellFormed(m, st)
    ensures Static(m) && m.colOf.Keys == m.place.Keys
  {
  }

  ghost predicate Fields(m: Matrix, s: Nodes)
    requires Static(m)
  {
    forall x :: x in m.colOf ==> 0 <= x < |s| && s[x].col == m.colOf[x] && s[x].name == m.name[x]
  }

  ghost predicate RowRings(m: Matrix, s: Nodes) {
    forall r :: 0 <= r < |m.rows| ==> HRing(s, m.rows[r])
  }

  ghost predicate LiveNodes(m: Matrix, w: map<int, seq<int>>)
    requires Static(m)
  {
    forall c, x :: c in w ==> (x in w[c] <==> LiveNode(m, w.Keys, c, x))
  }

  ghost predicate LiveNode(m: Matrix, live: set<int>, c: int, x: int)
    requires Static(m)
  {
    x in m.place && m.colOf[x] == c && RowCols(m, RowOf(m, x)) <= live
  }

  lemma {:induction false} UnlinkKeeps(m: Matrix, st: Torus, c: int)
    requires WellFormed(m, st) && c in st.cols
    ensures 0 <= c < |st.s| && 0 <= st.s[c].left < |st.s| && 0 <= st.s[c].right < |st.s|
    ensures st.s[st.s[c].left].right == c && st.s[st.s[c].right].left == c
    ensures HRing(Unlink(st.s, c), [m.root] + Without(st.heads, [c]))
    ensures Columns(m.colOf, Unlink(st.s, c), st.cols)
    ensures RowRings(m, Unlink(st.s, c)) && Fields(m, Unlink(st.s, c))
  {
    var k := UnlinkHead(st.s, m.root, st.heads, c);
    NeighboursAreHeads(m, st, k);
    UnlinkOutside(m, st.s, st.cols, c);
  }

  lemma UnlinkHead(s: Nodes, root: int, heads: seq<int>, c: int) returns (k: int)
    requires HRing(s, [root] + heads) && c in heads
    ensures 0 <= k <= |heads| && ([root] + heads)[k] == c
    ensures 0 <= c < |s| && 0 <= s[c].left < |s| && 0 <= s[c].right < |s|
    ensures s[s[c].left].right == c && s[s[c].right].left == c
    ensures HRing(Unlink(s, c), [root] + Without(heads, [c]))
  {
    var i :| 0 <= i < |heads| && heads[i] == c;
    CutCons(root, heads, i);
    k := i + 1;
    UnlinkRing(s, [root] + heads, k);
    TailDistinct(root, heads);
    WithoutOne(heads, i);
  }

  lemma NeighboursAreHeads(m: Matrix, st: Torus, k: int)
    requires WellFormed(m, st) && 0 <= k <= |st.heads|
    ensures var c := ([m.root] + st.heads)[k];
            0 <= c < |st.s| && st.s[c].left !in m.colOf && st.s[c].right !in m.colOf
  {
    var f := [m.root] + st.heads;
    forall i | 0 <= i < |f|
      ensures f[i] !in m.colOf
    {
      if i > 0 {
        assert f[i] == st.heads[i - 1] && f[i] in st.heads;
        assert ColumnOk(m.colOf, st.s, f[i], st.cols[f[i]]);
      }
    }
    assert st.s[f[k]].right == f[Succ(|f|, k)];
  }

  /** Only the horizontal links of headers differ. */
  ghost predicate HeaderLinksOnly(m: Matrix, s: Nodes, t: Nodes) {
    && |t| == |s|
    && (forall i :: 0 <= i < |s| ==>
         && t[i].up == s[i].up && t[i].down == s[i].down
         && t[i].col == s[i].col && t[i].size == s[i].size && t[i].name == s[i].name)
    && (forall i :: 0 <= i < |s| && i in m.colOf ==> t[i].left == s[i].left && t[i].right == s[i].right)
  }

  lemma {:induction false} UnlinkOutside(m: Matrix, s: Nodes, w: map<int, seq<int>>, c: int)
    requires Static(m) && 0 <= c < |s| && 0 <= s[c].left < |s| && 0 <= s[c].right < |s|
    requires s[c].left !in m.colOf && s[c].right !in m.colOf
    requires Columns(m.colOf, s, w) && RowRings(m, s) && Fields(m, s)
    ensures Columns(m.colOf, Unlink(s, c), w) && RowRings(m, Unlink(s, c)) && Fields(m, Unlink(s, c))
  {
    hide Static, Unlink, HeaderLinksOnly, Columns, RowRings, Fields;
    UnlinkHeaders(m, s, c);
    var t := Unlink(s, c);
    OutsideColumns(m, s, t, w);
    OutsideRows(m, s, t);
    OutsideFields(m, s, t);
  }

  lemma UnlinkHeaders(m: Matrix, s: Nodes, c: int)
    requires 0 <= c < |s| && 0 <= s[c].left < |s| && 0 <= s[c].right < |s|
    requires s[c].left !in m.colOf && s[c].right !in m.colOf
    ensures HeaderLinksOnly(m, s, Unlink(s, c))
  {
  }

  lemma OutsideColumns(m: Matrix, s: Nodes, t: Nodes, w: map<int, seq<int>>)
    requires HeaderLinksOnly(m, s, t) && Columns(m.colOf, s, w)
    ensures Columns(m.colOf, t, w)
  {
    hide ColumnOk;
    forall d | d in w
      ensures ColumnOk(m.colOf, t, d, w[d])
    {
      assert ColumnOk(m.colOf, s, d, w[d]);
      SameColumn(m.colOf, s, t, d, w[d]);
    }
  }

  lemma OutsideRows(m: Matrix, s: Nodes, t: Nodes)
    requires Static(m) && Fields(m, s) && HeaderLinksOnly(m, s, t) && RowRings(m, s)
    ensures RowRings(m, t)
  {
    hide HRing;
    forall r | 0 <= r < |m.rows|
      ensures HRing(t, m.rows[r])
    {
      forall i | 0 <= i < |m.rows[r]|
        ensures m.rows[r][i] in m.colOf
      {
        assert m.rows[r][i] in m.place;
      }
      assert HRing(s, m.rows[r]);
      SameRing(s, t, m.rows[r]);
    }
  }

  lemma OutsideFields(m: Matrix, s: Nodes, t: Nodes)
    requires Static(m) && HeaderLinksOnly(m, s, t) && Fields(m, s)
    ensures Fields(m, t)
  {
    assert m.colOf.Keys == m.name.Keys;
    hide Static;
  }

  lemma SameColumn(a: map<int, int>, s: Nodes, t: Nodes, d: int, q: seq<int>)
    requires ColumnOk(a, s, d, q) && |t| == |s|
    requires forall i :: 0 <= i < |s| ==>
      t[i].up == s[i].up && t[i].down == s[i].down && t[i].col == s[i].col && t[i].size == s[i].size
    ensures ColumnOk(a, t, d, q)
  {
  }

  lemma SameRing(s: Nodes, t: Nodes, q: seq<int>)
    requires HRing(s, q) && |t| == |s|
    requires forall i :: 0 <= i < |q| ==> t[q[i]].left == s[q[i]].left && t[q[i]].right == s[q[i]].right
    ensures HRing(t, q)
  {
  }

  /** What covering column `c` hides: all mates of the nodes still in its ring. */
  ghost function CoverList(m: Matrix, st: Torus, c: int): seq<int>
    requires WellFormed(m, st) && c in st.cols
  {
    assert ColumnOk(m.colOf, st.s, c, st.cols[c]);
    HideList(m, st.cols[c])
  }

  lemma {:induction false} CoverListLive(m: Matrix, st: Torus, c: int)
    requires WellFormed(m, st) && c in st.cols
    ensures Distinct(CoverList(m, st, c))
    ensures forall x :: x in CoverList(m, st, c) ==>
              x in m.colOf && m.colOf[x] in st.cols && x in st.cols[m.colOf[x]] && m.colOf[x] != c
  {
    var q := st.cols[c];
    assert ColumnOk(m.colOf, st.s, c, q);
    TailDistinct(c, q);
    HideListDistinct(m, q, c);
    HideListAre(m, q);
    forall x | x in CoverList(m, st, c)
      ensures m.colOf[x] in st.cols && x in st.cols[m.colOf[x]]
    {
      var y :| y in q && x in Mates(m, y);
      MatesAre(m, y);
      assert LiveNode(m, st.cols.Keys, c, y);
      assert m.colOf[m.rows[m.place[x].0][m.place[x].1]] in RowCols(m, RowOf(m, x));
      assert LiveNode(m, st.cols.Keys, m.colOf[x], x);
    }
  }

  lemma {:induction false} CoverSteps(m: Matrix, st: Torus, c: int, l: seq<int>)
    requires WellFormed(m, st) && c in st.cols && l <= CoverList(m, st, c)
    ensures 0 <= c < |st.s| && 0 <= st.s[c].left < |st.s| && 0 <= st.s[c].right < |st.s|
    ensures CanHideAll(Unlink(st.s, c), l)
    ensures var t := HideAll(Unlink(st.s, c), l);
            && SameRows(Unlink(st.s, c), t)
            && Columns(m.colOf, t, Minus(st.cols, l))
            && ColumnOk(m.colOf, t, c, st.cols[c])
  {
    hide VRing, HRing, LiveNodes, Static;
    UnlinkKeeps(m, st, c);
    CoverListLive(m, st, c);
    var f := CoverList(m, st, c);
    assert forall i :: 0 <= i < |l| ==> l[i] == f[i] && f[i] in f;
    HideAllKeepsColumns(m.colOf, Unlink(st.s, c), st.cols, l);
    HideAllSameRows(Unlink(st.s, c), l);
    assert ColumnOk(m.colOf, HideAll(Unlink(st.s, c), l), c, Minus(st.cols, l)[c]);
    assert ColumnOk(m.colOf, st.s, c, st.cols[c]);
    WithoutIs(st.cols[c], l);
  }

  /** The effect of `cover(c)` on the whole structure. */
  ghost function Covered(m: Matrix, st: Torus, c: int): Torus
    requires WellFormed(m, st) && c in st.cols
  {
    var l := CoverList(m, st, c);
    CoverSteps(m, st, c, l);
    Torus(HideAll(Unlink(st.s, c), l), Without(st.heads, [c]), Minus(st.cols, l) - {c})
  }

  lemma {:induction false} CoverKeepsWellFormed(m: Matrix, st: Torus, c: int)
    requires WellFormed(m, st) && c in st.cols
    ensures WellFormed(m, Covered(m, st, c)) && |Covered(m, st, c).s| == |st.s|
    ensures Covered(m, st, c).cols.Keys == st.cols.Keys - {c}
    ensures ColumnOk(m.colOf, Covered(m, st, c).s, c, st.cols[c])
  {
    hide VRing, HRing, ColumnOk, LiveNodes, Static, HideAll, CanHideAll, Without, HideList;
    StaticOf(m, st);
    var l, u := CoverList(m, st, c), Covered(m, st, c);
    CoverSteps(m, st, c, l);
    UnlinkKeeps(m, st, c);
    WithoutIs(st.heads, [c]);
    SameRowsRing(Unlink(st.s, c), u.s, [m.root] + u.heads);
    SameRowRings(m, Unlink(st.s, c), u.s);
    CoverLiveNodes(m, st, c);
  }

  /** A row stays in the other rings exactly when it has no node in column `c`. */
  lemma {:induction false} CoverLiveNodes(m: Matrix, st: Torus, c: int)
    requires WellFormed(m, st) && c in st.cols
    ensures LiveNodes(m, Minus(st.cols, CoverList(m, st, c)) - {c})
  {
    var l := CoverList(m, st, c);
    var w := Minus(st.cols, l) - {c};
    assert w.Keys == st.cols.Keys - {c};
    forall d, x | d in w
      ensures x in w[d] <==> LiveNode(m, w.Keys, d, x)
    {
      WithoutIs(st.cols[d], l);
      if x in st.cols[d] {
        assert LiveNode(m, st.cols.Keys, d, x);
        InCoverList(m, st, c, x);
      }
      if LiveNode(m, w.Keys, d, x) {
        assert LiveNode(m, st.cols.Keys, d, x);
      }
    }
  }

  lemma {:induction false} InCoverList(m: Matrix, st: Torus, c: int, x: int)
    requires WellFormed(m, st) && c in st.cols
    requires x in m.place && m.colOf[x] != c && RowCols(m, RowOf(m, x)) <= st.cols.Keys
    ensures x in CoverList(m, st, c) <==> c in RowCols(m, RowOf(m, x))
  {
    var q := st.cols[c];
    HideListAre(m, q);
    if x in CoverList(m, st, c) {
      var y :| y in q && x in Mates(m, y);
      MatesAre(m, y);
      assert LiveNode(m, st.cols.Keys, c, y);
      assert m.rows[m.place[y].0][m.place[y].1] == y;
    } else if c in RowCols(m, RowOf(m, x)) {
      var r := RowOf(m, x);
      var k :| 0 <= k < |m.rows[r]| && m.colOf[m.rows[r][k]] == c;
      var y := m.rows[r][k];
      assert LiveNode(m, st.cols.Keys, c, y);
      MatesAre(m, y);
      assert false;
    }
  }

  lemma SameRowsRing(s: Nodes, t: Nodes, q: seq<int>)
    requires HRing(s, q) && SameRows(s, t)
    ensures HRing(t, q)
  {
    SameRing(s, t, q);
  }

  lemma SameRowRings(m: Matrix, s: Nodes, t: Nodes)
    requires RowRings(m, s) && SameRows(s, t)
    ensures RowRings(m, t)
  {
    forall r | 0 <= r < |m.rows|
      ensures HRing(t, m.rows[r])
    {
      SameRowsRing(s, t, m.rows[r]);
    }
  }

  // --------------------------------------------------------- walking rings

  /** Following `right` from `x` visits its mates in order and comes back; `left` backwards. */
  ghost predicate RowWalk(s: Nodes, x: int, l: seq<int>) {
    && 0 <= x < |s| && x !in l && Within(s, l)
    && s[x].right == (if l == [] then x else l[0])
    && s[x].left == (if l == [] then x else l[|l| - 1])
    && (forall k {:trigger s[l[k]]} :: 0 <= k < |l| ==>
         && s[l[k]].right == (if k + 1 < |l| then l[k + 1] else x)
         && s[l[k]].left == (if k > 0 then l[k - 1] else x))
  }

  /** Following `down` from header `c` visits the nodes `q` in order; `up` backwards. */
  ghost predicate ColumnWalk(s: Nodes, c: int, q: seq<int>) {
    && 0 <= c < |s| && c !in q && Within(s, q)
    && s[c].down == (if q == [] then c else q[0])
    && s[c].up == (if q == [] then c else q[|q| - 1])
    && (forall k {:trigger s[q[k]]} :: 0 <= k < |q| ==>
         && s[q[k]].down == (if k + 1 < |q| then q[k + 1] else c)
         && s[q[k]].up == (if k > 0 then q[k - 1] else c))
  }

  lemma {:induction false} WalkRing(s: Nodes, row: seq<int>, p: int)
    requires HRing(s, row) && 0 <= p < |row|
    ensures RowWalk(s, row[p], row[p + 1..] + row[..p])
  {
    var l, n := row[p + 1..] + row[..p], |row|;
    assert s[row[p]].right == row[Succ(n, p)];
    forall k {:trigger s[l[k]]} | 0 <= k < |l|
      ensures 0 <= l[k] < |s| && l[k] != row[p]
      ensures s[l[k]].right == (if k + 1 < |l| then l[k + 1] else row[p])
      ensures s[l[k]].left == (if k > 0 then l[k - 1] else row[p])
    {
      RotateSlot(row, p, k);
      assert s[row[if p + 1 + k < n then p + 1 + k else p + 1 + k - n]].col == s[l[k]].col;
    }
  }

  lemma RotateSlot(row: seq<int>, p: int, k: int)
    requires 0 <= p < |row| && 0 <= k < |row| - 1
    ensures var l, n := row[p + 1..] + row[..p], |row|;
            var i := if p + 1 + k < n then p + 1 + k else p + 1 + k - n;
            && l[k] == row[i]
            && (if k + 1 < |l| then l[k + 1] else row[p]) == row[Succ(n, i)]
            && (if k > 0 then l[k - 1] else row[p]) == row[Pred(n, i)]
  {
  }

  lemma {:induction false} WalkColumn(s: Nodes, c: int, q: seq<int>)
    requires VRing(s, [c] + q)
    ensures ColumnWalk(s, c, q)
  {
    var f := [c] + q;
    TailDistinct(c, q);
    RingSlot(s, f, 0, 0);
    forall k {:trigger s[q[k]]} | 0 <= k < |q|
      ensures 0 <= q[k] < |s|
      ensures s[q[k]].down == (if k + 1 < |q| then q[k + 1] else c)
      ensures s[q[k]].up == (if k > 0 then q[k - 1] else c)
    {
      assert f[k + 1] == q[k];
      RingSlot(s, f, k + 1, k + 1);
    }
    assert Within(s, q) by {
      forall k | 0 <= k < |q|
        ensures 0 <= q[k] < |s|
      {
        assert f[k + 1] == q[k];
      }
    }
  }

  // ---------------------------------------------- the loops of cover, uncover

  lemma {:induction false} HideListSpan(m: Matrix, q: seq<int>, i: int)
    requires Static(m) && (forall x :: x in q ==> x in m.place) && 0 <= i < |q|
    ensures HideList(m, q[..i + 1]) == HideList(m, q[..i]) + Mates(m, q[i])
    ensures HideList(m, q[..i + 1]) <= HideList(m, q)
    decreases |q|
  {
    if i == |q| - 1 {
      assert q[..i + 1] == q;
    } else {
      var p := q[..|q| - 1];
      assert p[..i + 1] == q[..i + 1] && p[..i] == q[..i];
      HideListSpan(m, p, i);
    }
  }

  /** Hiding `x` leads from `s` to `t`, and unhiding it leads back. */
  ghost predicate Hides(s: Nodes, x: int, t: Nodes) {
    Linked(s, x) && Hide(s, x) == t && Indexed(t, x) && Unhide(t, x) == s
  }

  /**
    An itinerary of the inner loop of `cover`: `tr[k]` is the node array when `k` of
    the mates `l` of node `x` have been hidden.
  */
  ghost predicate RowPlan(tr: seq<Nodes>, x: int, l: seq<int>) {
    && |tr| == |l| + 1
    && (forall k :: 0 <= k < |tr| ==> RowWalk(tr[k], x, l))
    && (forall k {:trigger l[k]} :: 0 <= k < |l| ==> Hides(tr[k], l[k], tr[k + 1]))
  }

  ghost predicate Trace(s: Nodes, tr: seq<Nodes>, l: seq<int>) {
    && |tr| == |l| + 1
    && (forall k :: 0 <= k < |tr| ==> SameRows(s, tr[k]))
    && (forall k {:trigger l[k]} :: 0 <= k < |l| ==> Hides(tr[k], l[k], tr[k + 1]))
  }

  lemma TraceSnoc(s: Nodes, tr: seq<Nodes>, l: seq<int>, z: int, t: Nodes)
    requires Trace(s, tr, l) && Hides(tr[|l|], z, t) && SameRows(s, t)
    ensures Trace(s, tr + [t], l + [z])
  {
    var tr', l' := tr + [t], l + [z];
    forall k {:trigger l'[k]} | 0 <= k < |l'|
      ensures Hides(tr'[k], l'[k], tr'[k + 1])
    {
      if k < |l| {
        assert Hides(tr[k], l[k], tr[k + 1]);
      }
    }
  }

  /** Hiding `l` after `l0` passes through one array per node. */
  lemma {:induction false} HideAllTrace(s: Nodes, l0: seq<int>, l: seq<int>) returns (tr: seq<Nodes>)
    requires CanHideAll(s, l0 + l)
    ensures CanHideAll(s, l0) && Trace(s, tr, l)
    ensures tr[0] == HideAll(s, l0) && tr[|l|] == HideAll(s, l0 + l)
    decreases |l|
  {
    hide CanHideAll, HideAll, Hides, SameRows;
    if l == [] {
      assert l0 + l == l0;
      HideAllSameRows(s, l0);
      tr := [HideAll(s, l0)];
    } else {
      var p, z := l[..|l| - 1], l[|l| - 1];
      assert l == p + [z] && l0 + l == l0 + p + [z];
      HideAllStep(s, l0, p, z);
      tr := HideAllTrace(s, l0, p);
      var t := HideAll(s, l0 + l);
      TraceSnoc(s, tr, p, z, t);
      TraceLength(s, tr, p);
      hide Trace;
      tr := tr + [t];
    }
  }

  lemma TraceLength(s: Nodes, tr: seq<Nodes>, l: seq<int>)
    requires Trace(s, tr, l)
    ensures |tr| == |l| + 1
  {
  }

  lemma {:induction false} HideAllStep(s: Nodes, l0: seq<int>, p: seq<int>, z: int)
    requires CanHideAll(s, l0 + p + [z])
    ensures CanHideAll(s, l0 + p) && SameRows(s, HideAll(s, l0 + p + [z]))
    ensures Hides(HideAll(s, l0 + p), z, HideAll(s, l0 + p + [z]))
  {
    var l := l0 + p + [z];
    assert l[..|l| - 1] == l0 + p;
    HideAllSameRows(s, l);
    HideThenUnhide(HideAll(s, l0 + p), z);
  }

  lemma SameRowWalk(s: Nodes, t: Nodes, x: int, l: seq<int>)
    requires RowWalk(s, x, l) && SameRows(s, t)
    ensures RowWalk(t, x, l)
  {
  }

  lemma {:induction false} HideRowPlan(s: Nodes, l0: seq<int>, x: int, l: seq<int>) returns (tr: seq<Nodes>)
    requires CanHideAll(s, l0 + l) && RowWalk(s, x, l)
    ensures CanHideAll(s, l0)
    ensures RowPlan(tr, x, l) && |tr| == |l| + 1
    ensures tr[0] == HideAll(s, l0) && tr[|l|] == HideAll(s, l0 + l)
  {
    tr := HideAllTrace(s, l0, l);
    forall k | 0 <= k < |tr|
      ensures RowWalk(tr[k], x, l)
    {
      SameRowWalk(s, tr[k], x, l);
    }
  }

  /** The node array when `cover(c)` has dealt with the first `i` nodes of its column. */
  ghost function RowsCovered(m: Matrix, st: Torus, c: int, i: int): Nodes
    requires WellFormed(m, st) && c in st.cols && 0 <= i <= |st.cols[c]|
  {
    RowsCoveredSteps(m, st, c, i);
    HideAll(Unlink(st.s, c), HideList(m, st.cols[c][..i]))
  }

  lemma {:induction false} RowsCoveredSteps(m: Matrix, st: Torus, c: int, i: int)
    requires WellFormed(m, st) && c in st.cols && 0 <= i <= |st.cols[c]|
    ensures 0 <= c < |st.s| && 0 <= st.s[c].left < |st.s| && 0 <= st.s[c].right < |st.s|
    ensures forall x :: x in st.cols[c] ==> x in m.place
    ensures CanHideAll(Unlink(st.s, c), HideList(m, st.cols[c][..i]))
    ensures VRing(HideAll(Unlink(st.s, c), HideList(m, st.cols[c][..i])), [c] + st.cols[c])
  {
    var q := st.cols[c];
    assert ColumnOk(m.colOf, st.s, c, q);
    if i > 0 {
      HideListSpan(m, q, i - 1);
    }
    CoverSteps(m, st, c, HideList(m, q[..i]));
  }

  lemma {:induction false} UnlinkWalk(m: Matrix, st: Torus, c: int, x: int)
    requires WellFormed(m, st) && c in st.cols && x in m.place
    ensures 0 <= c < |st.s| && 0 <= st.s[c].left < |st.s| && 0 <= st.s[c].right < |st.s|
    ensures RowWalk(Unlink(st.s, c), x, Mates(m, x))
  {
    hide HRing, VRing, Columns, LiveNodes;
    UnlinkKeeps(m, st, c);
    WalkRing(Unlink(st.s, c), m.rows[RowOf(m, x)], m.place[x].1);
  }

  lemma {:induction false} CoverRowPlan(m: Matrix, st: Torus, c: int, i: int) returns (tr: seq<Nodes>)
    requires WellFormed(m, st) && c in st.cols && 0 <= i < |st.cols[c]|
    ensures forall x :: x in st.cols[c] ==> x in m.place
    ensures RowPlan(tr, st.cols[c][i], Mates(m, st.cols[c][i])) && |tr| == |Mates(m, st.cols[c][i])| + 1
    ensures tr[0] == RowsCovered(m, st, c, i) && tr[|tr| - 1] == RowsCovered(m, st, c, i + 1)
  {
    hide WellFormed, Static, RowPlan, RowWalk, CanHideAll, HideAll, HideList, VRing, Unlink, Mates;
    StaticOf(m, st);
    var q := st.cols[c];
    RowsCoveredSteps(m, st, c, i + 1);
    UnlinkWalk(m, st, c, q[i]);
    HideListSpan(m, q, i);
    tr := HideRowPlan(Unlink(st.s, c), HideList(m, q[..i]), q[i], Mates(m, q[i]));
  }

  lemma {:induction false} RowsCoveredWalk(m: Matrix, st: Torus, c: int, i: int)
    requires WellFormed(m, st) && c in st.cols && 0 <= i <= |st.cols[c]|
    ensures ColumnWalk(RowsCovered(m, st, c, i), c, st.cols[c])
    ensures 0 <= st.s[c].left < |st.s| && 0 <= st.s[c].right < |st.s|
    ensures i == 0 ==> RowsCovered(m, st, c, i) == Unlink(st.s, c)
    ensures i == |st.cols[c]| ==> RowsCovered(m, st, c, i) == Covered(m, st, c).s
  {
    RowsCoveredSteps(m, st, c, i);
    WalkColumn(RowsCovered(m, st, c, i), c, st.cols[c]);
    assert st.cols[c][..|st.cols[c]|] == st.cols[c];
  }

  /**
    An itinerary of the outer loop: `cs[i]` is the node array when the first `i` nodes
    of column `c` have been dealt with, and `rp[i]` leads from `cs[i]` to the next.
  */
  datatype Plan = Plan(q: seq<int>, ls: seq<seq<int>>, cs: seq<Nodes>, rp: seq<seq<Nodes>>)

  ghost predicate ColumnPlan(p: Plan, c: int) {
    && |p.cs| == |p.rp| + 1 && |p.rp| == |p.ls| <= |p.q|
    && (forall i :: 0 <= i < |p.cs| ==> ColumnWalk(p.cs[i], c, p.q))
    && (forall i {:trigger p.rp[i]} :: 0 <= i < |p.rp| ==> RowLeg(p.rp[i], p.q[i], p.ls[i], p.cs[i], p.cs[i + 1]))
  }

  ghost predicate RowLeg(tr: seq<Nodes>, x: int, l: seq<int>, s: Nodes, t: Nodes) {
    RowPlan(tr, x, l) && tr[0] == s && tr[|l|] == t
  }

  lemma PlanSnoc(p: Plan, c: int, l: seq<int>, tr: seq<Nodes>, t: Nodes) returns (p': Plan)
    requires ColumnPlan(p, c) && |p.rp| < |p.q|
    requires RowLeg(tr, p.q[|p.rp|], l, p.cs[|p.rp|], t) && ColumnWalk(t, c, p.q)
    ensures ColumnPlan(p', c) && p'.q == p.q && |p'.rp| == |p.rp| + 1
    ensures p'.cs[0] == p.cs[0] && p'.cs[|p'.rp|] == t
  {
    p' := Plan(p.q, p.ls + [l], p.cs + [t], p.rp + [tr]);
  }

  lemma {:induction false} CoverPlanUpTo(m: Matrix, st: Torus, c: int, n: int) returns (p: Plan)
    requires WellFormed(m, st) && c in st.cols && 0 <= n <= |st.cols[c]|
    ensures ColumnPlan(p, c) && p.q == st.cols[c] && |p.rp| == n
    ensures p.cs[0] == RowsCovered(m, st, c, 0) && p.cs[n] == RowsCovered(m, st, c, n)
    decreases n
  {
    RowsCoveredWalk(m, st, c, n);
    if n == 0 {
      p := Plan(st.cols[c], [], [RowsCovered(m, st, c, 0)], []);
    } else {
      p := CoverPlanUpTo(m, st, c, n - 1);
      var tr := CoverRowPlan(m, st, c, n - 1);
      p := PlanSnoc(p, c, Mates(m, p.q[n - 1]), tr, RowsCovered(m, st, c, n));
    }
  }

  /** One whole `cover(c)`, from the node array `s` to `t`. */
  datatype Trip = Trip(c: int, s: Nodes, p: Plan, t: Nodes)

  ghost predicate TripOk(z: Trip) {
    && 0 <= z.c < |z.s| && 0 <= z.s[z.c].left < |z.s| && 0 <= z.s[z.c].right < |z.s|
    && z.s[z.s[z.c].left].right == z.c && z.s[z.s[z.c].right].left == z.c
    && ColumnPlan(z.p, z.c) && |z.p.rp| == |z.p.q|
    && z.p.cs[0] == Unlink(z.s, z.c) && z.p.cs[|z.p.q|] == z.t
  }

  /** Every cover of a live column has an itinerary, from unlinking the header to `Covered`. */
  lemma {:induction false} CoverTrip(m: Matrix, st: Torus, c: int) returns (z: Trip)
    requires WellFormed(m, st) && c in st.cols
    ensures TripOk(z) && z.c == c && z.s == st.s && z.t == Covered(m, st, c).s
  {
    UnlinkKeeps(m, st, c);
    var p := CoverPlanUpTo(m, st, c, |st.cols[c]|);
    RowsCoveredWalk(m, st, c, 0);
    RowsCoveredWalk(m, st, c, |st.cols[c]|);
    z := Trip(c, st.s, p, Covered(m, st, c).s);
  }

  /** The covers that `solve` makes for the mates `l` of row node `x`, passing through `ss`. */
  ghost predicate Journey(zs: seq<Trip>, ss: seq<Nodes>, x: int, l: seq<int>) {
    && |zs| <= |l| && |ss| == |zs| + 1
    && (forall k :: 0 <= k < |ss| ==> RowWalk(ss[k], x, l))
    && (forall k {:trigger zs[k]} :: 0 <= k < |zs| ==> Stage(zs[k], ss[k], l[k], ss[k + 1]))
  }

  ghost predicate Stage(z: Trip, s: Nodes, y: int, t: Nodes) {
    TripOk(z) && z.s == s && z.t == t && 0 <= y < |s| == |t| && s[y].col == z.c == t[y].col
  }

  // -------------------------------------------------------- exact covers

  /** The rows `rs` use only live columns and meet each live column exactly once. */
  ghost predicate ExactCover(m: Matrix, live: set<int>, rs: set<int>)
    requires Static(m)
  {
    && (forall r :: r in rs ==> 0 <= r < |m.rows| && m.rows[r] != [] && RowCols(m, r) <= live)
    && (forall c :: c in live ==> exists r :: r in rs && c in RowCols(m, r))
    && (forall r, r' :: r in rs && r' in rs && r != r' ==> RowCols(m, r) !! RowCols(m, r'))
  }

  /** Taking one row out of an exact cover leaves an exact cover of the other columns. */
  lemma {:induction false} ExactCoverMinus(m: Matrix, live: set<int>, rs: set<int>, r: int)
    requires Static(m) && ExactCover(m, live, rs) && r in rs
    ensures ExactCover(m, live - RowCols(m, r), rs - {r})
  {
    forall c | c in live - RowCols(m, r)
      ensures exists r' :: r' in rs - {r} && c in RowCols(m, r')
    {
      var r' :| r' in rs && c in RowCols(m, r');
      assert r' in rs - {r};
    }
  }

  lemma {:induction false} ExactCoverPlus(m: Matrix, live: set<int>, rs: set<int>, r: int)
    requires Static(m) && 0 <= r < |m.rows| && m.rows[r] != [] && RowCols(m, r) <= live
    requires ExactCover(m, live - RowCols(m, r), rs)
    ensures ExactCover(m, live, {r} + rs)
  {
    hide Static, RowCols;
    var all := {r} + rs;
    forall c | c in live
      ensures exists r' :: r' in all && c in RowCols(m, r')
    {
      if c in RowCols(m, r) {
        assert r in all;
      } else {
        assert c in live - RowCols(m, r);
        var r' :| r' in rs && c in RowCols(m, r');
        assert r' in all;
      }
    }
  }

  /** Each exact cover uses one of the nodes in the ring of any live column. */
  lemma {:induction false} SomeRowOfColumn(m: Matrix, w: map<int, seq<int>>, c: int, rs: set<int>) returns (k: int)
    requires Static(m) && LiveNodes(m, w) && c in w && ExactCover(m, w.Keys, rs)
    ensures 0 <= k < |w[c]| && w[c][k] in m.place && RowOf(m, w[c][k]) in rs
  {
    var r :| r in rs && c in RowCols(m, r);
    var i :| 0 <= i < |m.rows[r]| && m.colOf[m.rows[r][i]] == c;
    var x := m.rows[r][i];
    assert RowOf(m, x) == r;
    assert LiveNode(m, w.Keys, c, x);
    k :| 0 <= k < |w[c]| && w[c][k] == x;
  }

  lemma NoColumnsNoRows(m: Matrix)
    requires Static(m)
    ensures ExactCover(m, {}, {})
  {
  }

  ghost function RowsOf(m: Matrix, xs: seq<int>): set<int>
    requires Static(m) && forall x :: x in xs ==> x in m.place
  {
    set x | x in xs :: RowOf(m, x)
  }

  /** The columns of `x`'s mates, in the order in which `solve` covers them. */
  ghost function MateCols(m: Matrix, x: int): (cs: seq<int>)
    requires Static(m) && x in m.place
    ensures |cs| == |Mates(m, x)|
    ensures forall k :: 0 <= k < |cs| ==> Mates(m, x)[k] in m.place && cs[k] == m.colOf[Mates(m, x)[k]]
  {
    MatesAre(m, x);
    var l := Mates(m, x);
    seq(|l|, k requires 0 <= k < |l| => assert l[k] in l; m.colOf[l[k]])
  }

  lemma {:induction false} MateColsAre(m: Matrix, x: int)
    requires Static(m) && x in m.place
    ensures Distinct(MateCols(m, x))
    ensures forall c :: c in MateCols(m, x) <==> c in RowCols(m, RowOf(m, x)) && c != m.colOf[x]
  {
    MateColsDistinct(m, x);
    hide Static, Distinct, MateCols, RowCols, RowOf;
    forall c
      ensures c in MateCols(m, x) <==> c in RowCols(m, RowOf(m, x)) && c != m.colOf[x]
    {
      MateColIn(m, x, c);
      MateColOut(m, x, c);
    }
  }

  lemma {:induction false} MateColsDistinct(m: Matrix, x: int)
    requires Static(m) && x in m.place
    ensures x in m.colOf && Distinct(MateCols(m, x))
  {
    MatesAre(m, x);
    var l, cs := Mates(m, x), MateCols(m, x);
    hide Mates, MateCols;
    forall i, j | 0 <= i < j < |cs|
      ensures cs[i] != cs[j]
    {
      assert l[i] in l && l[j] in l;
      OneNodePerColumn(m, l[i], l[j]);
    }
  }

  lemma {:induction false} MateColIn(m: Matrix, x: int, c: int)
    requires Static(m) && x in m.place
    ensures c in MateCols(m, x) ==> c in RowCols(m, RowOf(m, x)) && c != m.colOf[x]
  {
    MatesAre(m, x);
    var l, cs := Mates(m, x), MateCols(m, x);
    hide Mates, MateCols;
    if c in cs {
      var k :| 0 <= k < |cs| && cs[k] == c;
      assert l[k] in l;
      OneNodePerColumn(m, l[k], x);
      assert m.rows[RowOf(m, x)][m.place[l[k]].1] == l[k];
    }
  }

  lemma {:induction false} MateColOut(m: Matrix, x: int, c: int)
    requires Static(m) && x in m.place
    ensures c in RowCols(m, RowOf(m, x)) && c != m.colOf[x] ==> c in MateCols(m, x)
  {
    MatesAre(m, x);
    var l, cs, r := Mates(m, x), MateCols(m, x), RowOf(m, x);
    hide Mates, MateCols;
    if c in RowCols(m, r) && c != m.colOf[x] {
      var i :| 0 <= i < |m.rows[r]| && m.colOf[m.rows[r][i]] == c;
      assert m.rows[r][i] in l;
      var k :| 0 <= k < |l| && l[k] == m.rows[r][i];
      assert cs[k] == c;
    }
  }


  lemma {:induction false} WalkMates(m: Matrix, st: Torus, x: int, y: int)
    requires WellFormed(m, st) && x in m.place && y in m.place
    ensures RowWalk(st.s, x, Mates(m, x))
    ensures 0 <= y < |st.s| && st.s[y].col == m.colOf[y]
  {
    WalkRing(st.s, m.rows[RowOf(m, x)], m.place[x].1);
  }

  lemma {:induction false} JourneyStep(m: Matrix, u: Torus, x: int, zs: seq<Trip>, ss: seq<Nodes>)
    returns (u': Torus, z: Trip)
    requires WellFormed(m, u) && x in m.place
    requires Journey(zs, ss, x, Mates(m, x)) && |zs| < |Mates(m, x)| && ss[|zs|] == u.s
    requires Mates(m, x)[|zs|] in m.place && m.colOf[Mates(m, x)[|zs|]] in u.cols
    ensures WellFormed(m, u') && u'.cols.Keys == u.cols.Keys - {m.colOf[Mates(m, x)[|zs|]]}
    ensures Journey(zs + [z], ss + [u'.s], x, Mates(m, x))
  {
    StaticOf(m, u);
    assert x in m.place && m.colOf.Keys == m.place.Keys;
    hide WellFormed, Static;
    var y := Mates(m, x)[|zs|];
    var c := m.colOf[y];
    u' := Covered(m, u, c);
    z := CoverTrip(m, u, c);
    CoverKeepsWellFormed(m, u, c);
    WalkMates(m, u, x, y);
    WalkMates(m, u', x, y);
    JourneySnoc(zs, ss, x, Mates(m, x), z, u'.s);
  }

  lemma JourneySnoc(zs: seq<Trip>, ss: seq<Nodes>, x: int, l: seq<int>, z: Trip, t: Nodes)
    requires Journey(zs, ss, x, l) && |zs| < |l| && Stage(z, ss[|zs|], l[|zs|], t) && RowWalk(t, x, l)
    ensures Journey(zs + [z], ss + [t], x, l)
  {
  }

  lemma JourneyNone(s: Nodes, x: int, l: seq<int>)
    requires RowWalk(s, x, l)
    ensures Journey([], [s], x, l)
  {
  }

  /** The mates of a live node can all be covered, one after the other. */
  lemma {:induction false} MatesJourney(m: Matrix, st: Torus, x: int)
    returns (zs: seq<Trip>, ss: seq<Nodes>, u: Torus)
    requires WellFormed(m, st) && x in m.place
    requires RowCols(m, RowOf(m, x)) - {m.colOf[x]} <= st.cols.Keys
    ensures WellFormed(m, u) && u.cols.Keys == st.cols.Keys - (RowCols(m, RowOf(m, x)) - {m.colOf[x]})
    ensures Journey(zs, ss, x, Mates(m, x)) && |zs| == |Mates(m, x)| && |ss| == |zs| + 1
    ensures ss[0] == st.s && ss[|zs|] == u.s
  {
    hide *;
    StaticOf(m, st);
    MateColsAre(m, x);
    zs, ss, u := MatesJourneyUpTo(m, st, x, |Mates(m, x)|);
    assert MateCols(m, x)[..|zs|] == MateCols(m, x);
    var gone := RowCols(m, RowOf(m, x)) - {m.colOf[x]};
    assert forall c :: c in gone <==> c in MateCols(m, x);
    assert forall c :: c in u.cols.Keys <==> c in st.cols.Keys - gone;
  }

  lemma {:induction false} MatesJourneyUpTo(m: Matrix, st: Torus, x: int, n: int)
    returns (zs: seq<Trip>, ss: seq<Nodes>, u: Torus)
    requires WellFormed(m, st) && x in m.place && 0 <= n <= |Mates(m, x)|
    requires RowCols(m, RowOf(m, x)) - {m.colOf[x]} <= st.cols.Keys
    ensures WellFormed(m, u) && forall c :: c in u.cols <==> c in st.cols && c !in MateCols(m, x)[..n]
    ensures Journey(zs, ss, x, Mates(m, x)) && |zs| == n && |ss| == n + 1
    ensures ss[0] == st.s && ss[n] == u.s
  {
    hide *;
    StaticOf(m, st);
    if n == 0 {
      WalkMates(m, st, x, x);
      JourneyNone(st.s, x, Mates(m, x));
      zs, ss, u := [], [st.s], st;
    } else {
      MateAt(m, x, n - 1);
      zs, ss, u := MatesJourneyUpTo(m, st, x, n - 1);
      var u', z := JourneyStep(m, u, x, zs, ss);
      zs, ss, u := zs + [z], ss + [u'.s], u';
    }
  }

  lemma MateAt(m: Matrix, x: int, k: int)
    requires Static(m) && x in m.place && 0 <= k < |Mates(m, x)|
    ensures Mates(m, x)[k] in m.place && m.colOf[Mates(m, x)[k]] == MateCols(m, x)[k]
    ensures MateCols(m, x)[k] in RowCols(m, RowOf(m, x)) - {m.colOf[x]}
    ensures MateCols(m, x)[k] !in MateCols(m, x)[..k]
    ensures forall c :: c in MateCols(m, x)[..k + 1] <==> c in MateCols(m, x)[..k] || c == MateCols(m, x)[k]
  {
    MateColsAre(m, x);
    assert MateCols(m, x)[k] in MateCols(m, x);
    assert MateCols(m, x)[..k + 1] == MateCols(m, x)[..k] + [MateCols(m, x)[k]];
  }

  // ------------------------------------------------------------ the search

  lemma {:induction false} LiveRow(m: Matrix, st: Torus, c: int, i: int)
    requires WellFormed(m, st) && c in st.cols && 0 <= i < |st.cols[c]|
    ensures st.cols[c][i] in m.place && m.colOf[st.cols[c][i]] == c
    ensures RowCols(m, RowOf(m, st.cols[c][i])) <= st.cols.Keys
    ensures c in RowCols(m, RowOf(m, st.cols[c][i]))
    ensures m.rows[RowOf(m, st.cols[c][i])] != []
  {
    hide VRing, HRing;
    var x := st.cols[c][i];
    assert x in st.cols[c];
    assert LiveNode(m, st.cols.Keys, c, x);
    assert m.rows[m.place[x].0][m.place[x].1] == x;
  }

  /** A column left without a cover for each of its nodes leaves the whole torus without one. */
  lemma {:induction false} NoRowNoCover(m: Matrix, st: Torus, c: int)
    requires WellFormed(m, st) && c in st.cols
    requires forall k, rs :: 0 <= k < |st.cols[c]| && ExactCover(m, st.cols.Keys, rs) ==>
               st.cols[c][k] in m.place && RowOf(m, st.cols[c][k]) !in rs
    ensures forall rs :: !ExactCover(m, st.cols.Keys, rs)
  {
    hide VRing, HRing, Columns, RowRings, Fields, LiveNodes, ExactCover, Static;
    forall rs
      ensures !ExactCover(m, st.cols.Keys, rs)
    {
      if ExactCover(m, st.cols.Keys, rs) {
        var k := SomeRowOfColumn(m, st.cols, c, rs);
      }
    }
  }

  lemma {:induction false} RowTried(m: Matrix, live: set<int>, r: int)
    requires Static(m) && 0 <= r < |m.rows|
    requires forall rs :: !ExactCover(m, live - RowCols(m, r), rs)
    ensures forall rs :: ExactCover(m, live, rs) ==> r !in rs
  {
    hide ExactCover, Static, RowCols;
    forall rs | ExactCover(m, live, rs)
      ensures r !in rs
    {
      if r in rs {
        ExactCoverMinus(m, live, rs, r);
      }
    }
  }

  /** After `cover(c)` the ring of `c` itself is still there to be walked. */
  lemma {:induction false} CoveredWalk(m: Matrix, st: Torus, c: int)
    requires WellFormed(m, st) && c in st.cols
    ensures ColumnWalk(Covered(m, st, c).s, c, st.cols[c])
  {
    hide WellFormed, VRing, Covered, ColumnWalk;
    CoverKeepsWellFormed(m, st, c);
    WalkColumn(Covered(m, st, c).s, c, st.cols[c]);
  }

  /** Adding the row of `x` in front of an exact cover of the columns it leaves. */
  lemma {:induction false} RowFound(m: Matrix, live: set<int>, x: int, more: seq<int>)
    requires Static(m) && x in m.place && forall y :: y in more ==> y in m.place
    requires m.rows[RowOf(m, x)] != [] && RowCols(m, RowOf(m, x)) <= live
    requires ExactCover(m, live - RowCols(m, RowOf(m, x)), RowsOf(m, more))
    ensures forall y :: y in [x] + more ==> y in m.place
    ensures ExactCover(m, live, RowsOf(m, [x] + more))
  {
    hide Static, ExactCover, RowCols;
    var all := [x] + more;
    assert forall y :: y in all <==> y == x || y in more;
    ExactCoverPlus(m, live, RowsOf(m, more), RowOf(m, x));
    assert RowsOf(m, all) == {RowOf(m, x)} + RowsOf(m, more);
  }

  lemma {:induction false} HeaderWalk(m: Matrix, st: Torus)
    requires WellFormed(m, st)
    ensures 0 <= m.root < |st.s|
    ensures st.s[m.root].left == m.root <==> st.heads == []
    ensures st.heads == [] <==> st.cols.Keys == {}
    ensures HeadsWalk(st.s, m.root, st.heads)
    ensures forall c :: c in st.heads <==> c in st.cols
    ensures forall c :: c in st.cols ==> 0 <= c < |st.s| && st.s[c].size == |st.cols[c]|
  {
    hide VRing, HRing, RowRings, Fields, LiveNodes, Static, HeadsWalk;
    HeadRing(st.s, m.root, st.heads);
    if st.heads == [] {
      assert forall c :: c !in st.cols.Keys;
    } else {
      assert st.heads[0] in st.heads && st.heads[0] in st.cols.Keys;
    }
    forall c | c in st.cols
      ensures 0 <= c < |st.s| && st.s[c].size == |st.cols[c]|
    {
      assert ColumnOk(m.colOf, st.s, c, st.cols[c]);
    }
  }

  lemma HeadRing(s: Nodes, root: int, heads: seq<int>)
    requires HRing(s, [root] + heads)
    ensures HeadsWalk(s, root, heads)
    ensures s[root].left == root <==> heads == []
  {
    var f := [root] + heads;
    TailDistinct(root, heads);
    assert f[0] == root && s[f[0]].right == f[Succ(|f|, 0)];
    forall i {:trigger heads[i]} | 0 <= i < |heads|
      ensures 0 <= heads[i] < |s| && s[heads[i]].right == if i + 1 < |heads| then heads[i + 1] else root
    {
      assert f[i + 1] == heads[i];
      assert s[f[i + 1]].right == f[Succ(|f|, i + 1)];
    }
  }

  /** Following `right` from the root visits the live headers in order and comes back. */
  ghost predicate HeadsWalk(s: Nodes, root: int, heads: seq<int>) {
    && 0 <= root < |s| && root !in heads
    && s[root].right == (if heads == [] then root else heads[0])
    && (forall i {:trigger heads[i]} :: 0 <= i < |heads| ==>
         0 <= heads[i] < |s| && s[heads[i]].right == if i + 1 < |heads| then heads[i + 1] else root)
  }
}