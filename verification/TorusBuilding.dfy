/**
  How the solver's constructor grows the torus: appending a header to the header
  ring, adding a node to a column's ring and joining new nodes into a matrix row.
*/
module TorusBuilding {
  import opened DancingLinks

  /** `put_left`: insert `x` into a horizontal ring, to the left of `o`. */
  function PutLeft(s: Nodes, o: int, x: int): Nodes
    requires 0 <= o < |s| && 0 <= x < |s| && 0 <= s[o].left < |s| && o != x && s[o].left != x
  {
    var t := s[x := s[x].(left := s[o].left, right := o)];
    var u := t[t[o].left := t[t[o].left].(right := x)];
    u[o := u[o].(left := x)]
  }

  /** `put_up`: insert `x` at the bottom of the column with header `o`. */
  function PutUp(s: Nodes, o: int, x: int): Nodes
    requires 0 <= o < |s| && 0 <= x < |s| && 0 <= s[o].up < |s| && o != x && s[o].up != x
  {
    var t := s[x := s[x].(up := s[o].up, down := o)];
    var u := t[t[o].up := t[t[o].up].(down := x)];
    var v := u[o := u[o].(up := x, size := u[o].size + 1)];
    v[x := v[x].(col := o)]
  }

  /** A node linked only to itself, as `new_column` and `new_row` set it up. */
  function Single(x: int, col: int, name: int): Node {
    Node(x, x, x, x, col, name, 0)
  }

  // -------------------------------------------------- inserting into a ring

  lemma {:induction false} InsertIntoRing(s: Nodes, t: Nodes, q: seq<int>, x: int)
    requires VRing(s, q) && |t| == |s| && 0 <= x < |s| && x !in q
    requires forall i :: 0 <= i < |s| ==>
               && t[i].up == (if i == q[0] then x else if i == x then s[q[0]].up else s[i].up)
               && t[i].down == (if i == x then q[0] else if i == s[q[0]].up then x else s[i].down)
    ensures VRing(t, q + [x])
  {
    var p, n := q + [x], |q|;
    assert s[q[0]].up == q[n - 1];
    forall i {:trigger t[p[i]]} | 0 <= i < |p|
      ensures 0 <= p[i] < |t| && t[p[i]].down == p[Succ(|p|, i)] && t[p[i]].up == p[Pred(|p|, i)]
    {
      if i < n {
        assert q[i] in q;
        RingSlot(s, q, i, 0);
      }
    }
    assert Distinct(p) by {
      assert forall i :: 0 <= i < n ==> q[i] in q;
    }
  }

  lemma {:induction false} PutLeftRing(s: Nodes, q: seq<int>, x: int)
    requires HRing(s, q) && 0 <= x < |s| && x !in q
    ensures q[0] != x && 0 <= s[q[0]].left < |s| && s[q[0]].left in q
    ensures HRing(PutLeft(s, q[0], x), q + [x])
  {
    assert s[q[0]].left == q[|q| - 1] && q[0] in q && q[|q| - 1] in q;
    var t := PutLeft(s, q[0], x);
    TurnRing(s, q);
    TurnRing(t, q + [x]);
    InsertIntoRing(Turn(s), Turn(t), q, x);
  }

  lemma PutLeftLinks(s: Nodes, o: int, x: int)
    requires 0 <= o < |s| && 0 <= x < |s| && 0 <= s[o].left < |s| && o != x && s[o].left != x
    ensures |PutLeft(s, o, x)| == |s|
    ensures forall i :: 0 <= i < |s| ==> var n := PutLeft(s, o, x)[i];
              && n.up == s[i].up && n.down == s[i].down && n.col == s[i].col && n.name == s[i].name
              && n.size == s[i].size
              && (i != o && i != x ==> n.left == s[i].left)
              && (i != s[o].left && i != x ==> n.right == s[i].right)
  {
  }

  // ------------------------------------------------------- a growing torus

  /** The column contents `w` list exactly the nodes that `a` assigns to each column. */
  ghost predicate Exact(a: map<int, int>, w: map<int, seq<int>>) {
    && (forall x :: x in a ==> a[x] in w)
    && (forall c, x :: c in w ==> (x in w[c] <==> x in a && a[x] == c))
  }

  lemma ExactTarget(a: map<int, int>, w: map<int, seq<int>>, x: int)
    requires Exact(a, w) && x in a
    ensures a[x] in w
  {
  }

  /** The structure between two steps of the constructor; nodes from `cur` on are unused. */
  ghost predicate Growing(m: Matrix, s: Nodes, heads: seq<int>, a: map<int, int>, w: map<int, seq<int>>, cur: int) {
    && Static(m) && m.root !in a && m.root !in w && 0 <= m.root < cur <= |s|
    && HRing(s, [m.root] + heads)
    && (forall c :: c in heads <==> c in w)
    && Columns(a, s, w) && Exact(a, w)
    && RowRings(m, s) && Fields(m, s)
    && (forall x :: x in m.colOf ==> x in a && a[x] == m.colOf[x])
    && (forall x :: x in a ==> 0 <= x < cur) && (forall c :: c in w ==> 0 <= c < cur)
  }

  lemma {:induction false} GrownIsWellFormed(m: Matrix, s: Nodes, heads: seq<int>, w: map<int, seq<int>>, cur: int)
    requires Growing(m, s, heads, m.colOf, w, cur)
    ensures WellFormed(m, Torus(s, heads, w))
  {
    hide HRing, Columns, RowRings, Fields;
    assert Exact(m.colOf, w);
    forall c, x | c in w
      ensures x in w[c] <==> LiveNode(m, w.Keys, c, x)
    {
      if x in m.place {
        var row := m.rows[RowOf(m, x)];
        RowBelow(m, RowOf(m, x));
        forall k | 0 <= k < |row|
          ensures m.colOf[row[k]] in w.Keys
        {
          ExactTarget(m.colOf, w, row[k]);
        }
        assert RowCols(m, RowOf(m, x)) <= w.Keys;
      }
    }
  }

  lemma {:induction false} FreshKeeps(m: Matrix, s: Nodes, heads: seq<int>, a: map<int, int>, w: map<int, seq<int>>,
                                      cur: int, n: Node)
    requires Growing(m, s, heads, a, w, cur) && cur < |s|
    ensures Growing(m, s[cur := n], heads, a, w, cur)
  {
    hide VRing, HRing, Static, Exact;
    var t := s[cur := n];
    assert HRing(t, [m.root] + heads) by {
      var f := [m.root] + heads;
      assert forall i :: 0 <= i < |f| ==> f[i] == m.root || f[i] in heads;
      HRingFrame(s, t, f);
    }
    forall c | c in w
      ensures ColumnOk(a, t, c, w[c])
    {
      assert ColumnOk(a, s, c, w[c]);
      var f := [c] + w[c];
      assert forall i :: 0 <= i < |f| ==> f[i] == c || f[i] in w[c];
      VRingFrame(s, t, f);
    }
    forall r | 0 <= r < |m.rows|
      ensures HRing(t, m.rows[r])
    {
      RowBelow(m, r);
      HRingFrame(s, t, m.rows[r]);
    }
  }

  lemma RowBelow(m: Matrix, r: int)
    requires Static(m) && 0 <= r < |m.rows|
    ensures forall i :: 0 <= i < |m.rows[r]| ==> m.rows[r][i] in m.colOf
  {
  }

  lemma HRingFrame(s: Nodes, t: Nodes, q: seq<int>)
    requires HRing(s, q) && |t| == |s|
    requires forall i :: 0 <= i < |q| && 0 <= q[i] < |s| ==>
               t[q[i]].left == s[q[i]].left && t[q[i]].right == s[q[i]].right
    ensures HRing(t, q)
  {
    SameRing(s, t, q);
  }

  lemma VRingFrame(s: Nodes, t: Nodes, q: seq<int>)
    requires VRing(s, q) && |t| == |s|
    requires forall i :: 0 <= i < |q| && 0 <= q[i] < |s| ==> t[q[i]].up == s[q[i]].up && t[q[i]].down == s[q[i]].down
    ensures VRing(t, q)
  {
  }

  /** `append_column`: a new header with an empty column. */
  lemma {:induction false} GrowColumn(m: Matrix, s: Nodes, heads: seq<int>, w: map<int, seq<int>>, cur: int, name: int)
    requires Growing(m, s, heads, m.colOf, w, cur) && cur < |s|
    ensures var t := s[cur := Single(cur, cur, name)];
            && 0 <= m.root < |t| && 0 <= t[m.root].left < |t| && m.root != cur && t[m.root].left != cur
            && Growing(m, PutLeft(t, m.root, cur), heads + [cur], m.colOf, w[cur := []], cur + 1)
            && PutLeft(t, m.root, cur)[cur].name == name
  {
    hide VRing, HRing, Static;
    var t := s[cur := Single(cur, cur, name)];
    FreshKeeps(m, s, heads, m.colOf, w, cur, Single(cur, cur, name));
    var f := [m.root] + heads;
    assert cur !in f;
    PutLeftRing(t, f, cur);
    var u, w' := PutLeft(t, m.root, cur), w[cur := []];
    PutLeftLinks(t, m.root, cur);
    assert f + [cur] == [m.root] + (heads + [cur]);
    forall c | c in w'
      ensures ColumnOk(m.colOf, u, c, w'[c])
    {
      if c == cur {
        SingleRing(u, cur);
      } else {
        assert ColumnOk(m.colOf, t, c, w[c]);
        SameColumn(m.colOf, t, u, c, w[c]);
      }
    }
    HeadersOutside(m, t, heads, m.colOf, w, cur);
    forall r | 0 <= r < |m.rows|
      ensures HRing(u, m.rows[r])
    {
      RowBelow(m, r);
      HRingFrame(t, u, m.rows[r]);
    }
  }

  lemma SingleRing(s: Nodes, x: int)
    requires 0 <= x < |s| && s[x].up == x && s[x].down == x
    ensures VRing(s, [x] + [])
  {
  }

  lemma {:induction false} HeadersOutside(m: Matrix, s: Nodes, heads: seq<int>, a: map<int, int>,
                                          w: map<int, seq<int>>, cur: int)
    requires Growing(m, s, heads, a, w, cur)
    ensures m.root !in a && s[m.root].left !in a
  {
    var f := [m.root] + heads;
    assert s[f[0]].left == f[Pred(|f|, 0)];
    if heads != [] {
      var h := heads[|heads| - 1];
      assert h in heads && f[|f| - 1] == h;
      assert ColumnOk(a, s, h, w[h]);
    }
  }

  /** `new_row`: a new node, alone in its row, at the bottom of column `c`. */
  lemma {:induction false} GrowNode(m: Matrix, s: Nodes, heads: seq<int>, a: map<int, int>, w: map<int, seq<int>>,
                                    cur: int, c: int, name: int)
    requires Growing(m, s, heads, a, w, cur) && cur < |s| && c in w
    ensures var t := s[cur := Single(cur, c, name)];
            && 0 <= c < |t| && 0 <= t[c].up < |t| && c != cur && t[c].up != cur
            && Growing(m, PutUp(t, c, cur), heads, a[cur := c], w[c := w[c] + [cur]], cur + 1)
            && RowLinksKept(s, PutUp(t, c, cur), cur)
            && Alone(PutUp(t, c, cur), cur, c, name)
  {
    hide VRing, HRing, Static;
    var t := s[cur := Single(cur, c, name)];
    FreshKeeps(m, s, heads, a, w, cur, Single(cur, c, name));
    assert ColumnOk(a, t, c, w[c]);
    PutUpRing(t, c, w[c], cur);
    var u, a', w' := PutUp(t, c, cur), a[cur := c], w[c := w[c] + [cur]];
    forall d | d in w'
      ensures ColumnOk(a', u, d, w'[d])
    {
      assert ColumnOk(a, t, d, w[d]);
      if d == c {
        assert forall y :: y in w'[c] <==> y in w[c] || y == cur;
      } else {
        ForeignColumn(a, t, u, d, w[d], c, cur, w[c]);
      }
    }
    HRingFrame(t, u, [m.root] + heads);
    forall r | 0 <= r < |m.rows|
      ensures HRing(u, m.rows[r])
    {
      HRingFrame(t, u, m.rows[r]);
    }
    NodeExact(a, w, c, cur);
  }

  ghost predicate RowLinksKept(s: Nodes, t: Nodes, x: int) {
    && |t| == |s|
    && (forall i :: 0 <= i < |s| && i != x ==>
         t[i].left == s[i].left && t[i].right == s[i].right && t[i].col == s[i].col && t[i].name == s[i].name)
  }

  ghost predicate Alone(s: Nodes, x: int, c: int, name: int) {
    0 <= x < |s| && s[x].left == x && s[x].right == x && s[x].col == c && s[x].name == name
  }

  lemma NodeExact(a: map<int, int>, w: map<int, seq<int>>, c: int, x: int)
    requires Exact(a, w) && c in w && x !in a
    ensures Exact(a[x := c], w[c := w[c] + [x]])
  {
    var w' := w[c := w[c] + [x]];
    assert forall y :: y in w'[c] <==> y in w[c] || y == x;
  }

  lemma {:induction false} PutUpRing(s: Nodes, c: int, q: seq<int>, x: int)
    requires VRing(s, [c] + q) && 0 <= x < |s| && x != c && x !in q
    ensures 0 <= c < |s| && 0 <= s[c].up < |s| && s[c].up != x && s[c].up in [c] + q
    ensures VRing(PutUp(s, c, x), [c] + (q + [x]))
    ensures forall i :: 0 <= i < |s| ==> var n := PutUp(s, c, x)[i];
              && n.left == s[i].left && n.right == s[i].right && n.name == s[i].name
              && n.col == (if i == x then c else s[i].col)
              && n.size == (if i == c then s[i].size + 1 else s[i].size)
              && (i != c && i != x ==> n.up == s[i].up)
              && (i != s[c].up && i != x ==> n.down == s[i].down)
  {
    var f := [c] + q;
    RingSlot(s, f, 0, 0);
    assert f[0] == c && f[|f| - 1] in f;
    InsertIntoRing(s, PutUp(s, c, x), f, x);
    assert f + [x] == [c] + (q + [x]);
  }

  lemma {:induction false} ForeignColumn(a: map<int, int>, s: Nodes, t: Nodes, d: int, q: seq<int>,
                                         c: int, x: int, p: seq<int>)
    requires ColumnOk(a, s, d, q) && ColumnOk(a, s, c, p) && d != c && x !in a && x != d && 0 <= x < |s| == |t|
    requires s[c].up in [c] + p
    requires forall i :: 0 <= i < |s| ==>
              && t[i].col == (if i == x then c else s[i].col)
              && t[i].size == (if i == c then s[i].size + 1 else s[i].size)
              && (i != c && i != x ==> t[i].up == s[i].up)
              && (i != s[c].up && i != x ==> t[i].down == s[i].down)
    requires x != c
    ensures ColumnOk(a[x := c], t, d, q)
  {
    hide VRing;
    var f := [d] + q;
    assert s[s[c].up].col == c;
    assert forall i :: 0 <= i < |f| ==> f[i] == d || f[i] in q;
    VRingFrame(s, t, f);
  }

  // ------------------------------------------------------------- a new row

  /** The four nodes from `x` on joined into one horizontal ring by three `put_left` steps. */
  ghost predicate Joined(s: Nodes, t: Nodes, x: int) {
    && 0 <= x && x + 3 < |s| && s[x].left == x
    && var u := PutLeft(s, x, x + 1);
    && u[x].left == x + 1
    && var v := PutLeft(u, x, x + 2);
    && v[x].left == x + 2
    && t == PutLeft(v, x, x + 3)
  }

  lemma {:induction false} JoinFour(s: Nodes, x: int)
    requires 0 <= x && x + 3 < |s|
    requires forall k :: x <= k < x + 4 ==> s[k].left == k && s[k].right == k
    ensures PutLeft(s, x, x + 1)[x].left == x + 1
    ensures PutLeft(PutLeft(s, x, x + 1), x, x + 2)[x].left == x + 2
    ensures var t := PutLeft(PutLeft(PutLeft(s, x, x + 1), x, x + 2), x, x + 3);
            Joined(s, t, x) && OnlyRowLinks(s, t, x) && HRing(t, [x, x + 1, x + 2, x + 3])
  {
    var u := PutLeft(s, x, x + 1);
    var v := PutLeft(u, x, x + 2);
    var t := PutLeft(v, x, x + 3);
    assert t[x].right == x + 1 && t[x + 1].right == x + 2 && t[x + 2].right == x + 3 && t[x + 3].right == x;
    assert t[x].left == x + 3 && t[x + 1].left == x && t[x + 2].left == x + 1 && t[x + 3].left == x + 2;
  }

  /** From `s` to `t` only the horizontal links of nodes from `x` on differ. */
  ghost predicate OnlyRowLinks(s: Nodes, t: Nodes, x: int) {
    && |t| == |s|
    && (forall i :: 0 <= i < |s| ==>
         && t[i].up == s[i].up && t[i].down == s[i].down && t[i].col == s[i].col
         && t[i].name == s[i].name && t[i].size == s[i].size
         && (i < x ==> t[i].left == s[i].left && t[i].right == s[i].right))
  }

  ghost function With4<T>(f: map<int, T>, x: int, a: T, b: T, c: T, d: T): map<int, T> {
    f[x := a][x + 1 := b][x + 2 := c][x + 3 := d]
  }

  /** The matrix with one more row, on the four nodes from `x` on. */
  ghost function WithRow(m: Matrix, x: int, cs: seq<int>, ns: seq<int>): Matrix
    requires |cs| == |ns| == 4
  {
    var n := |m.rows|;
    Matrix(m.root, m.rows + [[x, x + 1, x + 2, x + 3]],
           With4(m.place, x, (n, 0), (n, 1), (n, 2), (n, 3)),
           With4(m.colOf, x, cs[0], cs[1], cs[2], cs[3]),
           With4(m.name, x, ns[0], ns[1], ns[2], ns[3]))
  }

  lemma {:induction false} WithRowStatic(m: Matrix, x: int, cs: seq<int>, ns: seq<int>)
    requires Static(m) && |cs| == |ns| == 4 && Distinct(cs) && forall y :: y in m.colOf ==> y < x
    ensures Static(WithRow(m, x, cs, ns))
  {
    hide WithRow, With4, Distinct;
    var m' := WithRow(m, x, cs, ns);
    WithRowKeys(m, x, cs, ns);
    forall r, k | 0 <= r < |m'.rows| && 0 <= k < |m'.rows[r]|
      ensures m'.rows[r][k] in m'.place && m'.place[m'.rows[r][k]] == (r, k)
    {
      WithRowPlace(m, x, cs, ns, r, k);
    }
    forall y | y in m'.place
      ensures 0 <= m'.place[y].0 < |m'.rows| && 0 <= m'.place[y].1 < |m'.rows[m'.place[y].0]|
      ensures m'.rows[m'.place[y].0][m'.place[y].1] == y
    {
      WithRowNode(m, x, cs, ns, y);
    }
    forall r, i, j | 0 <= r < |m'.rows| && 0 <= i < j < |m'.rows[r]|
      ensures m'.colOf[m'.rows[r][i]] != m'.colOf[m'.rows[r][j]]
    {
      WithRowDistinct(m, x, cs, ns, r, i, j);
    }
  }

  lemma WithRowKeys(m: Matrix, x: int, cs: seq<int>, ns: seq<int>)
    requires Static(m) && |cs| == |ns| == 4
    ensures var m' := WithRow(m, x, cs, ns); m'.colOf.Keys == m'.place.Keys == m'.name.Keys
  {
    hide Distinct;
    assert m.colOf.Keys == m.place.Keys == m.name.Keys;
    With4Keys(m.place, x, (|m.rows|, 0), (|m.rows|, 1), (|m.rows|, 2), (|m.rows|, 3));
    With4Keys(m.colOf, x, cs[0], cs[1], cs[2], cs[3]);
    With4Keys(m.name, x, ns[0], ns[1], ns[2], ns[3]);
  }

  lemma With4Keys<T>(f: map<int, T>, x: int, a: T, b: T, c: T, d: T)
    ensures With4(f, x, a, b, c, d).Keys == f.Keys + {x, x + 1, x + 2, x + 3}
  {
  }

  lemma WithRowPlace(m: Matrix, x: int, cs: seq<int>, ns: seq<int>, r: int, k: int)
    requires Static(m) && |cs| == |ns| == 4 && forall y :: y in m.colOf ==> y < x
    requires var rows := WithRow(m, x, cs, ns).rows; 0 <= r < |rows| && 0 <= k < |rows[r]|
    ensures var m' := WithRow(m, x, cs, ns); m'.rows[r][k] in m'.place && m'.place[m'.rows[r][k]] == (r, k)
  {
    if r < |m.rows| {
      assert m.rows[r][k] in m.place && m.rows[r][k] in m.colOf;
    }
  }

  lemma WithRowNode(m: Matrix, x: int, cs: seq<int>, ns: seq<int>, y: int)
    requires Static(m) && |cs| == |ns| == 4 && y in WithRow(m, x, cs, ns).place
    requires forall y :: y in m.colOf ==> y < x
    ensures var m' := WithRow(m, x, cs, ns);
            && 0 <= m'.place[y].0 < |m'.rows| && 0 <= m'.place[y].1 < |m'.rows[m'.place[y].0]|
            && m'.rows[m'.place[y].0][m'.place[y].1] == y
  {
    if y < x {
      assert y in m.place;
    }
  }

  lemma WithRowDistinct(m: Matrix, x: int, cs: seq<int>, ns: seq<int>, r: int, i: int, j: int)
    requires Static(m) && |cs| == |ns| == 4 && Distinct(cs) && forall y :: y in m.colOf ==> y < x
    requires var rows := WithRow(m, x, cs, ns).rows; 0 <= r < |rows| && 0 <= i < j < |rows[r]|
    ensures var m' := WithRow(m, x, cs, ns);
            && m'.rows[r][i] in m'.colOf && m'.rows[r][j] in m'.colOf
            && m'.colOf[m'.rows[r][i]] != m'.colOf[m'.rows[r][j]]
  {
    if r < |m.rows| {
      assert m.rows[r][i] in m.place && m.rows[r][j] in m.place;
      assert m.rows[r][i] in m.colOf && m.rows[r][j] in m.colOf;
    }
  }

  lemma {:induction false} WithRowCols(m: Matrix, x: int, cs: seq<int>, ns: seq<int>)
    requires Static(m) && |cs| == |ns| == 4 && Distinct(cs) && forall y :: y in m.colOf ==> y < x
    requires Static(WithRow(m, x, cs, ns))
    ensures forall r :: 0 <= r < |m.rows| ==> RowCols(WithRow(m, x, cs, ns), r) == RowCols(m, r)
    ensures RowCols(WithRow(m, x, cs, ns), |m.rows|) == {cs[0], cs[1], cs[2], cs[3]}
  {
    forall r | 0 <= r < |m.rows|
      ensures RowCols(WithRow(m, x, cs, ns), r) == RowCols(m, r)
    {
      OldRowCols(m, x, cs, ns, r);
    }
    NewRowCols(m, x, cs, ns);
  }

  lemma {:induction false} OldRowCols(m: Matrix, x: int, cs: seq<int>, ns: seq<int>, r: int)
    requires Static(m) && |cs| == |ns| == 4 && (forall y :: y in m.colOf ==> y < x) && 0 <= r < |m.rows|
    requires Static(WithRow(m, x, cs, ns))
    ensures RowCols(WithRow(m, x, cs, ns), r) == RowCols(m, r)
  {
    var m' := WithRow(m, x, cs, ns);
    OldColOf(m, x, cs, ns, r);
    hide WithRow;
    SameRowCols(m, m', r);
  }

  lemma OldColOf(m: Matrix, x: int, cs: seq<int>, ns: seq<int>, r: int)
    requires Static(m) && |cs| == |ns| == 4 && (forall y :: y in m.colOf ==> y < x) && 0 <= r < |m.rows|
    ensures var m' := WithRow(m, x, cs, ns);
            && r < |m'.rows| && m'.rows[r] == m.rows[r]
            && forall y :: y in m.colOf ==> y in m'.colOf && m'.colOf[y] == m.colOf[y]
  {
    hide Static;
  }

  lemma SameRowCols(m: Matrix, m': Matrix, r: int)
    requires Static(m) && Static(m') && 0 <= r < |m.rows| && r < |m'.rows| && m'.rows[r] == m.rows[r]
    requires forall y :: y in m.colOf ==> y in m'.colOf && m'.colOf[y] == m.colOf[y]
    ensures RowCols(m', r) == RowCols(m, r)
  {
    var row := m.rows[r];
    forall k | 0 <= k < |row|
      ensures row[k] in m.colOf
    {
      assert m.rows[r][k] in m.place;
    }
    hide Static;
    forall k | 0 <= k < |row|
      ensures row[k] in m'.colOf && m'.colOf[row[k]] == m.colOf[row[k]]
    {
      var y := row[k];
      assert y in m.colOf;
    }
  }

  lemma {:induction false} NewRowCols(m: Matrix, x: int, cs: seq<int>, ns: seq<int>)
    requires |cs| == |ns| == 4 && Static(WithRow(m, x, cs, ns))
    ensures RowCols(WithRow(m, x, cs, ns), |m.rows|) == {cs[0], cs[1], cs[2], cs[3]}
  {
    hide Static;
    var m' := WithRow(m, x, cs, ns);
    var row := m'.rows[|m.rows|];
    assert row == [x, x + 1, x + 2, x + 3];
    assert m'.colOf[row[0]] == cs[0] && m'.colOf[row[1]] == cs[1] && m'.colOf[row[2]] == cs[2];
    assert m'.colOf[row[3]] == cs[3];
  }

  /** Four new nodes, joined, form a row of the grown matrix. */
  lemma {:induction false} RowAdded(m: Matrix, s: Nodes, t: Nodes, heads: seq<int>, w: map<int, seq<int>>, x: int,
                                    cs: seq<int>, ns: seq<int>)
    requires |cs| == |ns| == 4 && Distinct(cs) && 0 <= x
    requires forall y :: y in m.colOf ==> y < x
    requires Growing(m, s, heads, WithRow(m, x, cs, ns).colOf, w, x + 4)
    requires (forall c :: c in w ==> c < x) && m.root < x
    requires forall k {:trigger cs[k]} :: 0 <= k < 4 ==> Alone(s, x + k, cs[k], ns[k])
    requires OnlyRowLinks(s, t, x) && HRing(t, [x, x + 1, x + 2, x + 3])
    ensures Growing(WithRow(m, x, cs, ns), t, heads, WithRow(m, x, cs, ns).colOf, w, x + 4)
  {
    hide VRing, HRing, Static, Exact, ColumnOk, Columns;
    var m' := WithRow(m, x, cs, ns);
    WithRowStatic(m, x, cs, ns);
    WithRowKeys(m, x, cs, ns);
    var f := [m.root] + heads;
    assert forall i :: 0 <= i < |f| ==> f[i] == m.root || f[i] in heads;
    HRingFrame(s, t, f);
    LinksKeepColumns(m'.colOf, s, t, w, x);
    forall r | 0 <= r < |m'.rows|
      ensures HRing(t, m'.rows[r])
    {
      if r < |m.rows| {
        RowBelow(m, r);
        assert m'.rows[r] == m.rows[r];
        HRingFrame(s, t, m.rows[r]);
      }
    }
    forall y | y in m'.colOf
      ensures 0 <= y < |t| && t[y].col == m'.colOf[y] && t[y].name == m'.name[y]
    {
      if y >= x {
        assert Alone(s, x + (y - x), cs[y - x], ns[y - x]);
      }
    }
  }

  lemma LinksKeepColumns(a: map<int, int>, s: Nodes, t: Nodes, w: map<int, seq<int>>, x: int)
    requires Columns(a, s, w) && OnlyRowLinks(s, t, x)
    ensures Columns(a, t, w)
  {
    hide VRing;
    forall c | c in w
      ensures ColumnOk(a, t, c, w[c])
    {
      assert ColumnOk(a, s, c, w[c]);
      SameColumn(a, s, t, c, w[c]);
    }
  }
}