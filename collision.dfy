/**
 * The collision loop of spaceship.py (`SpaceObject.handel_collision`) on
 * values: the striker's cells are visited in row-major order; each
 * non-empty one is mapped into the other object's grid and hit there with
 * tier 2, and when that hit changes the other object the striker's own cell
 * takes a tier-2 hit too. The float transform from striker cell to other
 * cell is the parameter `toOther`.
 */
module Collision {
  import opened Cells
  import opened Damage

  /** The striker's grid and the other object's grid. */
  datatype Grids = Grids(a: seq<seq<int>>, b: seq<seq<int>>)

  /** A tier-2 hit at cell q of g is in range and changes the cell: `handel_damage` returns True. */
  predicate Landed(kind: Kind, g: seq<seq<int>>, q: Pos)
    requires !kind.StarShip?
  {
    InGrid(g, q.0, q.1) && Struck(kind, g[q.0][q.1], 2) != g[q.0][q.1]
  }

  /** Both grids keep their shapes. */
  predicate SameShape(g: seq<seq<int>>, h: seq<seq<int>>)
  {
    |g| == |h| && forall i :: 0 <= i < |g| ==> |g[i]| == |h[i]|
  }

  /** The body of the inner loop at striker cell p. */
  function StrikeStep(ka: Kind, kb: Kind, s: Grids, toOther: Pos -> Pos, p: Pos): (r: Grids)
    requires !ka.StarShip? && !kb.StarShip?
    ensures SameShape(r.a, s.a) && SameShape(r.b, s.b)
    ensures r.a != s.a ==>
      InGrid(s.a, p.0, p.1) && s.a[p.0][p.1] != Empty && Landed(kb, s.b, toOther(p))
    ensures r.b != s.b ==> InGrid(s.a, p.0, p.1) && s.a[p.0][p.1] != Empty
    ensures r.b != s.b <==> InGrid(s.a, p.0, p.1) && s.a[p.0][p.1] != Empty && Landed(kb, s.b, toOther(p))
  {
    if !InGrid(s.a, p.0, p.1) || s.a[p.0][p.1] == Empty then s
    else
      var q := toOther(p);
      if Landed(kb, s.b, q) then
        var b' := Put(s.b, q.0, q.1, Struck(kb, s.b[q.0][q.1], 2));
        assert b'[q.0][q.1] != s.b[q.0][q.1];
        Grids(Put(s.a, p.0, p.1, Struck(ka, s.a[p.0][p.1], 2)), b')
      else s
  }

  /** The grids once every striker cell before (y, x) in row-major order, for rows of width w, is processed. */
  function Collide(ka: Kind, kb: Kind, g: Grids, toOther: Pos -> Pos, w: nat, y: nat, x: nat): Grids
    requires !ka.StarShip? && !kb.StarShip?
    decreases y, x
  {
    if x > 0 then StrikeStep(ka, kb, Collide(ka, kb, g, toOther, w, y, x - 1), toOther, (y, x - 1))
    else if y > 0 then Collide(ka, kb, g, toOther, w, y - 1, w)
    else g
  }

  /** Cell (i, j) comes before cell (y, x) in row-major order. */
  predicate Visited(i: int, j: int, y: int, x: int)
  {
    i < y || (i == y && j < x)
  }

  /** The collision keeps both grids' shapes. */
  lemma {:induction false} CollideShape(ka: Kind, kb: Kind, g: Grids, toOther: Pos -> Pos, w: nat, y: nat, x: nat)
    requires !ka.StarShip? && !kb.StarShip?
    ensures SameShape(Collide(ka, kb, g, toOther, w, y, x).a, g.a)
    ensures SameShape(Collide(ka, kb, g, toOther, w, y, x).b, g.b)
    decreases y, x
  {
    if x > 0 {
      CollideShape(ka, kb, g, toOther, w, y, x - 1);
    } else if y > 0 {
      CollideShape(ka, kb, g, toOther, w, y - 1, w);
    }
  }

  /**
   * A striker cell not yet visited is still as it was, and a visited one is
   * either as it was or took one tier-2 hit; it took the hit only if it was
   * non-empty.
   */
  lemma {:induction false} CollideStrikerCell(ka: Kind, kb: Kind, g: Grids, toOther: Pos -> Pos,
                                              w: nat, y: nat, x: nat, i: int, j: int)
    requires !ka.StarShip? && !kb.StarShip?
    requires InGrid(g.a, i, j)
    ensures var r := Collide(ka, kb, g, toOther, w, y, x).a;
      && InGrid(r, i, j)
      && (!Visited(i, j, y, x) ==> r[i][j] == g.a[i][j])
      && (r[i][j] == g.a[i][j] || (g.a[i][j] != Empty && r[i][j] == Struck(ka, g.a[i][j], 2)))
    decreases y, x
  {
    CollideShape(ka, kb, g, toOther, w, y, x);
    if x > 0 {
      CollideStrikerCell(ka, kb, g, toOther, w, y, x - 1, i, j);
      CollideShape(ka, kb, g, toOther, w, y, x - 1);
    } else if y > 0 {
      CollideStrikerCell(ka, kb, g, toOther, w, y - 1, w, i, j);
    }
  }

  /**
   * Every cell of the other object either is as it was or took exactly one
   * tier-2 hit: a second hit on the same cell changes nothing, so a cell
   * hit by several striker cells is hit once in effect.
   */
  lemma {:induction false} CollideOtherCell(ka: Kind, kb: Kind, g: Grids, toOther: Pos -> Pos,
                                            w: nat, y: nat, x: nat, i: int, j: int)
    requires !ka.StarShip? && !kb.StarShip?
    requires InGrid(g.b, i, j)
    ensures var r := Collide(ka, kb, g, toOther, w, y, x).b;
      InGrid(r, i, j) && (r[i][j] == g.b[i][j] || r[i][j] == Struck(kb, g.b[i][j], 2))
    decreases y, x
  {
    CollideShape(ka, kb, g, toOther, w, y, x);
    if x > 0 {
      CollideOtherCell(ka, kb, g, toOther, w, y, x - 1, i, j);
      StruckTwiceTier2(kb, g.b[i][j]);
    } else if y > 0 {
      CollideOtherCell(ka, kb, g, toOther, w, y - 1, w, i, j);
    }
  }

  /** A hit never fills a cell: the number of non-empty cells can only go down. */
  lemma StrikeNeverFills(kind: Kind, g: seq<seq<int>>, i: int, j: int)
    requires !kind.StarShip? && InGrid(g, i, j)
    ensures Count(Put(g, i, j, Struck(kind, g[i][j], 2)), Occupied) <= Count(g, Occupied)
  {
    CountPut(g, i, j, Struck(kind, g[i][j], 2), Occupied);
  }

  /** A collision never adds a cell to either object. */
  lemma {:induction false} CollideNeverFills(ka: Kind, kb: Kind, g: Grids, toOther: Pos -> Pos, w: nat, y: nat, x: nat)
    requires !ka.StarShip? && !kb.StarShip?
    ensures Count(Collide(ka, kb, g, toOther, w, y, x).a, Occupied) <= Count(g.a, Occupied)
    ensures Count(Collide(ka, kb, g, toOther, w, y, x).b, Occupied) <= Count(g.b, Occupied)
    decreases y, x
  {
    if x > 0 {
      var s := Collide(ka, kb, g, toOther, w, y, x - 1);
      CollideNeverFills(ka, kb, g, toOther, w, y, x - 1);
      var p := (y, x - 1);
      if InGrid(s.a, p.0, p.1) && s.a[p.0][p.1] != Empty && Landed(kb, s.b, toOther(p)) {
        var q := toOther(p);
        StrikeNeverFills(ka, s.a, p.0, p.1);
        StrikeNeverFills(kb, s.b, q.0, q.1);
      }
    } else if y > 0 {
      CollideNeverFills(ka, kb, g, toOther, w, y - 1, w);
    }
  }
}
