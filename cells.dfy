/**
 * The cell grid of a space object's body (a rectangular List[List[int]] in
 * spaceship.py), viewed as a sequence of rows, with the counting and the
 * position listings that the objects' derived counters are built from.
 */
module Cells {

  /** Cell codes. */
  const Empty: int := 0
  const HullCell: int := 1
  const Armour: int := 2
  const Turret: int := 3
  const Cannon: int := 4

  /** A cell position as (row, column): the key shape of `turrets` and `cannons`. */
  type Pos = (int, int)

  predicate InGrid(g: seq<seq<int>>, y: int, x: int)
  {
    0 <= y < |g| && 0 <= x < |g[y]|
  }

  /** Every row has width `w`. */
  predicate Rectangular(g: seq<seq<int>>, w: nat)
  {
    forall i :: 0 <= i < |g| ==> |g[i]| == w
  }

  /** A cell counted by `cells`: any non-zero code. */
  predicate Occupied(c: int)
  {
    c != Empty
  }

  /** A cell counted towards `hull` at construction: codes 1 to 4. */
  predicate Structural(c: int)
  {
    HullCell <= c <= Cannon
  }

  function Ind(b: bool): nat
  {
    if b then 1 else 0
  }

  /** The grid with cell (y, x) overwritten by v. */
  function Put(g: seq<seq<int>>, y: int, x: int, v: int): seq<seq<int>>
    requires InGrid(g, y, x)
  {
    g[y := g[y][x := v]]
  }

  /** Putting back the value a cell already holds changes nothing. */
  lemma PutSame(g: seq<seq<int>>, y: int, x: int)
    requires InGrid(g, y, x)
    ensures Put(g, y, x, g[y][x]) == g
  {
    assert g[y][x := g[y][x]] == g[y];
  }

  // ---------------------------------------------------------------------
  // Counting

  function CountRow(row: seq<int>, p: int -> bool): nat
    decreases |row|
  {
    if row == [] then 0
    else CountRow(row[..|row| - 1], p) + Ind(p(row[|row| - 1]))
  }

  function Count(g: seq<seq<int>>, p: int -> bool): nat
    decreases |g|
  {
    if g == [] then 0
    else Count(g[..|g| - 1], p) + CountRow(g[|g| - 1], p)
  }

  lemma CountRowSnoc(row: seq<int>, j: int, p: int -> bool)
    requires 0 <= j < |row|
    ensures CountRow(row[..j + 1], p) == CountRow(row[..j], p) + Ind(p(row[j]))
  {
    assert row[..j + 1][..j] == row[..j];
  }

  lemma CountSnoc(g: seq<seq<int>>, i: int, p: int -> bool)
    requires 0 <= i < |g|
    ensures Count(g[..i + 1], p) == Count(g[..i], p) + CountRow(g[i], p)
  {
    assert g[..i + 1][..i] == g[..i];
  }

  /** Overwriting one cell changes a count by at most the old and the new cell's membership. */
  lemma {:induction false} CountRowPut(row: seq<int>, x: int, v: int, p: int -> bool)
    requires 0 <= x < |row|
    ensures CountRow(row[x := v], p) + Ind(p(row[x])) == CountRow(row, p) + Ind(p(v))
    decreases |row|
  {
    var n := |row|;
    if x == n - 1 {
      assert row[x := v][..n - 1] == row[..n - 1];
    } else {
      assert row[x := v][..n - 1] == row[..n - 1][x := v];
      CountRowPut(row[..n - 1], x, v, p);
    }
  }

  lemma {:induction false} CountPut(g: seq<seq<int>>, y: int, x: int, v: int, p: int -> bool)
    requires InGrid(g, y, x)
    ensures Count(Put(g, y, x, v), p) + Ind(p(g[y][x])) == Count(g, p) + Ind(p(v))
    decreases |g|
  {
    var n := |g|;
    var g' := Put(g, y, x, v);
    if y == n - 1 {
      assert g'[..n - 1] == g[..n - 1];
      CountRowPut(g[y], x, v, p);
    } else {
      assert g'[..n - 1] == Put(g[..n - 1], y, x, v);
      CountPut(g[..n - 1], y, x, v, p);
    }
  }

  // ---------------------------------------------------------------------
  // Row-major position listings

  /** (row, col) before (row', col') in row-major order. */
  predicate Before(p: Pos, q: Pos)
  {
    p.0 < q.0 || (p.0 == q.0 && p.1 < q.1)
  }

  /** The positions (i, j) of cells of `row` (row number i) that hold `c`, left to right. */
  function RowPositions(row: seq<int>, i: int, c: int): (r: seq<Pos>)
    ensures forall k :: 0 <= k < |r| ==> r[k].0 == i && 0 <= r[k].1 < |row| && row[r[k].1] == c
    ensures forall a, b :: 0 <= a < b < |r| ==> r[a].1 < r[b].1
    decreases |row|
  {
    if row == [] then []
    else
      RowPositions(row[..|row| - 1], i, c)
      + (if row[|row| - 1] == c then [(i, |row| - 1)] else [])
  }

  /** The positions of all cells of `g` that hold `c`, in row-major order. */
  function Positions(g: seq<seq<int>>, c: int): (r: seq<Pos>)
    ensures forall k :: 0 <= k < |r| ==> InGrid(g, r[k].0, r[k].1) && g[r[k].0][r[k].1] == c
    ensures forall a, b :: 0 <= a < b < |r| ==> Before(r[a], r[b])
    decreases |g|
  {
    if g == [] then []
    else Positions(g[..|g| - 1], c) + RowPositions(g[|g| - 1], |g| - 1, c)
  }

  /** The set of positions holding `c`. */
  function Where(g: seq<seq<int>>, c: int): set<Pos>
  {
    set p | p in Positions(g, c)
  }

  lemma {:induction false} RowPositionsComplete(row: seq<int>, i: int, j: int, c: int)
    requires 0 <= j < |row| && row[j] == c
    ensures (i, j) in RowPositions(row, i, c)
    decreases |row|
  {
    if j < |row| - 1 {
      assert row[..|row| - 1][j] == c;
      RowPositionsComplete(row[..|row| - 1], i, j, c);
    }
  }

  /** A position is listed exactly when its cell holds `c`. */
  lemma {:induction false} PositionsComplete(g: seq<seq<int>>, y: int, x: int, c: int)
    requires InGrid(g, y, x)
    ensures (y, x) in Positions(g, c) <==> g[y][x] == c
    decreases |g|
  {
    if g[y][x] == c {
      if y == |g| - 1 {
        RowPositionsComplete(g[y], y, x, c);
      } else {
        assert g[..|g| - 1][y] == g[y];
        PositionsComplete(g[..|g| - 1], y, x, c);
      }
    }
  }

  lemma WhereIff(g: seq<seq<int>>, y: int, x: int, c: int)
    requires InGrid(g, y, x)
    ensures (y, x) in Where(g, c) <==> g[y][x] == c
  {
    PositionsComplete(g, y, x, c);
  }

  /** A sequence without repeated elements. */
  predicate NoDup<T(==)>(s: seq<T>)
  {
    forall a, b :: 0 <= a < b < |s| ==> s[a] != s[b]
  }

  lemma PositionsNoDup(g: seq<seq<int>>, c: int)
    ensures NoDup(Positions(g, c))
  {
  }

  // ---------------------------------------------------------------------
  // First-occurrence removal (Python's list.remove)

  function RemoveFirst<T(==)>(s: seq<T>, x: T): (r: seq<T>)
    ensures x in s ==> |r| == |s| - 1
    ensures x !in s ==> r == s
  {
    if s == [] then []
    else if s[0] == x then s[1..]
    else [s[0]] + RemoveFirst(s[1..], x)
  }

  lemma {:induction false} RemoveFirstAppend<T>(s: seq<T>, t: seq<T>, x: T)
    ensures RemoveFirst(s + t, x) == if x in s then RemoveFirst(s, x) + t else s + RemoveFirst(t, x)
  {
    if s != [] {
      assert (s + t)[1..] == s[1..] + t;
      if s[0] != x {
        RemoveFirstAppend(s[1..], t, x);
        assert x in s <==> x in s[1..];
        if x in s {
          assert [s[0]] + (RemoveFirst(s[1..], x) + t) == ([s[0]] + RemoveFirst(s[1..], x)) + t;
        } else {
          assert [s[0]] + (s[1..] + RemoveFirst(t, x)) == s + RemoveFirst(t, x);
        }
      }
    } else {
      assert s + t == t;
    }
  }

  /** Removing the first occurrence from a sequence without repeats removes the element outright. */
  lemma {:induction false} RemoveFirstElements<T>(s: seq<T>, x: T)
    requires NoDup(s)
    ensures NoDup(RemoveFirst(s, x))
    ensures forall z :: z in RemoveFirst(s, x) <==> z in s && z != x
  {
    if s != [] && s[0] != x {
      assert NoDup(s[1..]);
      RemoveFirstElements(s[1..], x);
      var r := RemoveFirst(s[1..], x);
      assert s[0] !in r;
      assert RemoveFirst(s, x) == [s[0]] + r;
      forall a, b | 0 <= a < b < |[s[0]] + r| ensures ([s[0]] + r)[a] != ([s[0]] + r)[b] {
        if a > 0 {
          assert ([s[0]] + r)[a] == r[a - 1] && ([s[0]] + r)[b] == r[b - 1];
        } else {
          assert ([s[0]] + r)[b] == r[b - 1];
        }
      }
    } else if s != [] {
      assert NoDup(s[1..]);
    }
  }

  // ---------------------------------------------------------------------
  // How one overwritten cell changes the listings

  lemma {:induction false} RowPositionsPut(row: seq<int>, i: int, x: int, v: int, c: int)
    requires 0 <= x < |row|
    ensures (row[x] == c) == (v == c) ==> RowPositions(row[x := v], i, c) == RowPositions(row, i, c)
    ensures row[x] == c && v != c ==>
      RowPositions(row[x := v], i, c) == RemoveFirst(RowPositions(row, i, c), (i, x))
    decreases |row|
  {
    var n := |row|;
    var row' := row[x := v];
    var last := if row[n - 1] == c then [(i, n - 1)] else [];
    if x == n - 1 {
      assert row'[..n - 1] == row[..n - 1];
      var a := RowPositions(row[..n - 1], i, c);
      if row[x] == c && v != c {
        assert (i, x) !in a;
        RemoveFirstAppend(a, [(i, x)], (i, x));
      }
    } else {
      assert row'[..n - 1] == row[..n - 1][x := v];
      RowPositionsPut(row[..n - 1], i, x, v, c);
      if row[x] == c && v != c {
        assert row[..n - 1][x] == c;
        RowPositionsComplete(row[..n - 1], i, x, c);
        RemoveFirstAppend(RowPositions(row[..n - 1], i, c), last, (i, x));
      }
    }
  }

  lemma {:induction false} PositionsPut(g: seq<seq<int>>, y: int, x: int, v: int, c: int)
    requires InGrid(g, y, x)
    ensures (g[y][x] == c) == (v == c) ==> Positions(Put(g, y, x, v), c) == Positions(g, c)
    ensures g[y][x] == c && v != c ==>
      Positions(Put(g, y, x, v), c) == RemoveFirst(Positions(g, c), (y, x))
    decreases |g|
  {
    var n := |g|;
    var g' := Put(g, y, x, v);
    if y == n - 1 {
      assert g'[..n - 1] == g[..n - 1];
      RowPositionsPut(g[y], y, x, v, c);
      if g[y][x] == c && v != c {
        assert (y, x) !in Positions(g[..n - 1], c);
        RemoveFirstAppend(Positions(g[..n - 1], c), RowPositions(g[y], y, c), (y, x));
      }
    } else {
      assert g'[..n - 1] == Put(g[..n - 1], y, x, v);
      PositionsPut(g[..n - 1], y, x, v, c);
      if g[y][x] == c && v != c {
        assert g[..n - 1][y][x] == c;
        PositionsComplete(g[..n - 1], y, x, c);
        RemoveFirstAppend(Positions(g[..n - 1], c), RowPositions(g[n - 1], n - 1, c), (y, x));
      }
    }
  }

  lemma WherePut(g: seq<seq<int>>, y: int, x: int, v: int, c: int)
    requires InGrid(g, y, x)
    ensures (g[y][x] == c) == (v == c) ==> Where(Put(g, y, x, v), c) == Where(g, c)
    ensures g[y][x] == c && v != c ==> Where(Put(g, y, x, v), c) == Where(g, c) - {(y, x)}
  {
    PositionsPut(g, y, x, v, c);
    if g[y][x] == c && v != c {
      PositionsNoDup(g, c);
      RemoveFirstElements(Positions(g, c), (y, x));
    }
  }

  // ---------------------------------------------------------------------
  // Listings built up in row-major order (the constructors' nested loops)

  lemma RowPositionsSnoc(row: seq<int>, i: int, j: int, c: int)
    requires 0 <= j < |row|
    ensures RowPositions(row[..j + 1], i, c)
         == RowPositions(row[..j], i, c) + (if row[j] == c then [(i, j)] else [])
  {
    assert row[..j + 1][..j] == row[..j];
  }

  lemma PositionsSnoc(g: seq<seq<int>>, i: int, c: int)
    requires 0 <= i < |g|
    ensures Positions(g[..i + 1], c) == Positions(g[..i], c) + RowPositions(g[i], i, c)
  {
    assert g[..i + 1][..i] == g[..i];
  }
}
