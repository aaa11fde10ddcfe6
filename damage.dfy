/**
 * The cell damage model of spaceship.py on values: which code a struck cell
 * takes, what happens to the derived counters, and the invariant tying the
 * counters to the grid, which every hit preserves.
 */
module Damage {
  import opened Cells
  import opened Optional

  /** Which class of spaceship.py an object was built as. */
  datatype Kind =
    | StarShip   // plain StarShip, the class game_map.py instantiates; its handel_damage raises
    | Corvette   // StarShip with the Corvette damage model and weapons
    | Asteroid

  /** The counters an object derives from its grid. */
  datatype Counters = Counters(cells: int, hull: Option<int>, turrets: map<Pos, int>, cannons: seq<Pos>)

  /**
   * The code a cell holds after the `handel_damage` of a `kind` object hits
   * it with damage tier `tier`.
   */
  function Struck(kind: Kind, code: int, tier: int): (r: int)
    requires !kind.StarShip?
    ensures r != code ==> r == Empty || (kind.Corvette? && code == Armour && tier == 1 && r == HullCell)
    ensures kind.Asteroid? ==> (r != code <==> code == HullCell || code == Armour)
    ensures kind.Corvette? ==>
      (r != code <==> Structural(code) && (code != Armour || tier == 1 || tier == 2))
  {
    if kind.Asteroid? then
      (if code == HullCell || code == Armour then Empty else code)
    else if code == HullCell || code == Turret || code == Cannon then Empty
    else if code == Armour then
      (if tier == 1 then HullCell else if tier == 2 then Empty else code)
    else code
  }

  /** A second tier-2 hit on the same cell changes nothing. */
  lemma StruckTwiceTier2(kind: Kind, code: int)
    requires !kind.StarShip?
    ensures Struck(kind, Struck(kind, code, 2), 2) == Struck(kind, code, 2)
  {
  }

  /** Every turret of t was already in t0, with the same cooldown: hits only remove turrets. */
  ghost predicate Survives(t: map<Pos, int>, t0: map<Pos, int>)
  {
    forall p :: p in t ==> p in t0 && t[p] == t0[p]
  }

  lemma SurvivesTrans(t2: map<Pos, int>, t1: map<Pos, int>, t0: map<Pos, int>)
    requires Survives(t2, t1) && Survives(t1, t0)
    ensures Survives(t2, t0)
  {
  }

  /**
   * The counters after cell (y, x), holding `code`, is hit: when the cell
   * empties, one cell goes and, on a corvette, one hull point (if present)
   * and the cell's turret key or cannon entry; otherwise nothing changes.
   */
  function AfterHit(kind: Kind, code: int, y: int, x: int, tier: int, c: Counters): (r: Counters)
    requires !kind.StarShip?
    ensures r.cells == c.cells || r.cells == c.cells - 1
    ensures r.hull.Some? == c.hull.Some?
    ensures Survives(r.turrets, c.turrets)
    ensures r.turrets == c.turrets || (code == Turret && r.turrets == c.turrets - {(y, x)})
  {
    if Struck(kind, code, tier) == code || Struck(kind, code, tier) != Empty then c
    else
      Counters(
        c.cells - 1,
        if kind.Corvette? && c.hull.Some? then Some(c.hull.value - 1) else c.hull,
        if code == Turret then c.turrets - {(y, x)} else c.turrets,
        if code == Cannon then RemoveFirst(c.cannons, (y, x)) else c.cannons)
  }

  /**
   * The counters agree with the grid: `cells` counts the non-zero cells; an
   * asteroid has no hull, turrets or cannons; a ship's present hull has lost
   * one point per structural cell lost since construction (`deficit` is
   * fixed then), its turret keys are exactly the turret cells and its cannon
   * list is exactly the cannon cells in row-major order.
   */
  ghost predicate Consistent(kind: Kind, g: seq<seq<int>>, c: Counters, deficit: int)
  {
    && c.cells == Count(g, Occupied)
    && (kind.Asteroid? ==> c.hull == None && c.turrets == map[] && c.cannons == [])
    && (!kind.Asteroid? ==>
          && (c.hull.Some? ==> c.hull.value + deficit == Count(g, Structural))
          && c.turrets.Keys == Where(g, Turret)
          && c.cannons == Positions(g, Cannon))
  }

  /** Every hit, of either kind and any tier, keeps the counters consistent with the grid. */
  lemma StrikeConsistent(kind: Kind, g: seq<seq<int>>, y: int, x: int, tier: int, c: Counters, deficit: int)
    requires !kind.StarShip? && InGrid(g, y, x)
    requires Consistent(kind, g, c, deficit)
    ensures Consistent(kind, Put(g, y, x, Struck(kind, g[y][x], tier)), AfterHit(kind, g[y][x], y, x, tier, c), deficit)
  {
    var v := Struck(kind, g[y][x], tier);
    CountPut(g, y, x, v, Occupied);
    CountPut(g, y, x, v, Structural);
    WherePut(g, y, x, v, Turret);
    PositionsPut(g, y, x, v, Cannon);
  }

  /** The counters never go negative while they are consistent. */
  lemma ConsistentCellsBound(kind: Kind, g: seq<seq<int>>, c: Counters, deficit: int)
    requires Consistent(kind, g, c, deficit)
    ensures c.cells >= 0
    ensures c.cells == 0 ==> forall i, j :: InGrid(g, i, j) ==> g[i][j] == Empty
  {
    if c.cells == 0 {
      forall i, j | InGrid(g, i, j)
        ensures g[i][j] == Empty
      {
        CountPut(g, i, j, Empty, Occupied);
      }
    }
  }
}
