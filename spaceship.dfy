/**
 * The cell-grid bodies of spaceship.py: SpaceObject with its StarShip,
 * Corvette and Asteroid variants, their derived counters, cell damage,
 * the weapon countdowns of Corvette.update, collision damage, and Bullet.
 *
 * Dafny has no subclassing here, so the hierarchy is one class with a
 * constant `kind`; the StarShip fields of an asteroid stay empty.
 */
module Spaceship {
  import opened Cells
  import opened Weapons
  import opened Optional
  import opened Damage
  import opened Collision

  /** The body array as a sequence of rows. */
  function GridOf(a: array2<int>): (g: seq<seq<int>>)
    reads a
    ensures |g| == a.Length0 && Rectangular(g, a.Length1)
    ensures forall i, j :: 0 <= i < a.Length0 && 0 <= j < a.Length1 ==> g[i][j] == a[i, j]
  {
    seq(a.Length0, i requires 0 <= i < a.Length0 reads a =>
      seq(a.Length1, j requires 0 <= j < a.Length1 reads a => a[i, j]))
  }

  /** An array that differs from grid `g` in cell (y, x) at most is `g` with that cell put. */
  lemma GridOfPut(a: array2<int>, g: seq<seq<int>>, y: int, x: int)
    requires |g| == a.Length0 && Rectangular(g, a.Length1)
    requires 0 <= y < a.Length0 && 0 <= x < a.Length1
    requires forall i, j :: 0 <= i < a.Length0 && 0 <= j < a.Length1 && (i, j) != (y, x) ==> a[i, j] == g[i][j]
    ensures GridOf(a) == Put(g, y, x, a[y, x])
  {
    var h := GridOf(a);
    forall i | 0 <= i < a.Length0
      ensures h[i] == Put(g, y, x, a[y, x])[i]
    {
    }
  }

  lemma GridOfAgrees(a: array2<int>, g: seq<seq<int>>)
    requires |g| == a.Length0 && Rectangular(g, a.Length1)
    requires forall i, j :: 0 <= i < a.Length0 && 0 <= j < a.Length1 ==> a[i, j] == g[i][j]
    ensures GridOf(a) == g
  {
    var h := GridOf(a);
    forall i | 0 <= i < a.Length0
      ensures h[i] == g[i]
    {
    }
  }

  /** `SpaceObject.__init__`'s loop: the number of non-zero cells. */
  method CountCells(body: array2<int>) returns (cells: int)
    ensures cells == Count(GridOf(body), Occupied)
  {
    var g := GridOf(body);
    cells := 0;
    var i := 0;
    while i < body.Length0
      invariant 0 <= i <= body.Length0
      invariant cells == Count(g[..i], Occupied)
    {
      var j := 0;
      while j < body.Length1
        invariant 0 <= j <= body.Length1
        invariant cells == Count(g[..i], Occupied) + CountRow(g[i][..j], Occupied)
      {
        if body[i, j] != Empty {
          cells := cells + 1;
        }
        CountRowSnoc(g[i], j, Occupied);
        j := j + 1;
      }
      assert g[i][..j] == g[i];
      CountSnoc(g, i, Occupied);
      i := i + 1;
    }
    assert g[..i] == g;
  }

  /** One row (number i) of `StarShip.__init__`'s loop, continuing the running totals. */
  method DeriveRow(body: array2<int>, i: int, structural0: int, turrets0: map<Pos, int>, cannons0: seq<Pos>,
                   ghost order0: seq<Pos>)
    returns (structural: int, turrets: map<Pos, int>, cannons: seq<Pos>, ghost order: seq<Pos>)
    requires 0 <= i < body.Length0
    requires forall p :: p in turrets0 <==> p in order0
    requires forall p :: p in turrets0 ==> 0 <= turrets0[p] <= TurretCooldown
    ensures structural == structural0 + CountRow(GridOf(body)[i], Structural)
    ensures order == order0 + RowPositions(GridOf(body)[i], i, Turret)
    ensures forall p :: p in turrets <==> p in order
    ensures forall p :: p in turrets ==> 0 <= turrets[p] <= TurretCooldown
    ensures cannons == cannons0 + RowPositions(GridOf(body)[i], i, Cannon)
  {
    var row := GridOf(body)[i];
    structural, turrets, cannons, order := structural0, turrets0, cannons0, order0;
    var j := 0;
    while j < body.Length1
      invariant 0 <= j <= body.Length1
      invariant structural == structural0 + CountRow(row[..j], Structural)
      invariant order == order0 + RowPositions(row[..j], i, Turret)
      invariant forall p :: p in turrets <==> p in order
      invariant forall p :: p in turrets ==> 0 <= turrets[p] <= TurretCooldown
      invariant cannons == cannons0 + RowPositions(row[..j], i, Cannon)
    {
      var number := body[i, j];
      if number == HullCell || number == Armour {
        structural := structural + 1;
      } else if number == Turret {
        var phase :| 0 <= phase <= TurretCooldown;
        turrets := turrets[(i, j) := phase];
        order := order + [(i, j)];
        structural := structural + 1;
      } else if number == Cannon {
        cannons := cannons + [(i, j)];
        structural := structural + 1;
      }
      CountRowSnoc(row, j, Structural);
      RowPositionsSnoc(row, i, j, Turret);
      RowPositionsSnoc(row, i, j, Cannon);
      j := j + 1;
    }
    assert row[..j] == row;
  }

  /**
   * `StarShip.__init__`'s loop: one hull point per three structural cells,
   * a turret cooldown with a random phase in [0, 160] per turret cell, and
   * the cannon cells in row-major order.
   */
  method DeriveShipCounters(body: array2<int>) returns (hull: int, turrets: map<Pos, int>, cannons: seq<Pos>)
    ensures hull == Count(GridOf(body), Structural) / 3
    ensures turrets.Keys == Where(GridOf(body), Turret)
    ensures forall p :: p in turrets ==> 0 <= turrets[p] <= TurretCooldown
    ensures cannons == Positions(GridOf(body), Cannon)
  {
    var g := GridOf(body);
    var structural := 0;
    turrets, cannons := map[], [];
    ghost var order: seq<Pos> := [];
    var i := 0;
    while i < body.Length0
      invariant 0 <= i <= body.Length0
      invariant structural == Count(g[..i], Structural)
      invariant order == Positions(g[..i], Turret)
      invariant forall p :: p in turrets <==> p in order
      invariant forall p :: p in turrets ==> 0 <= turrets[p] <= TurretCooldown
      invariant cannons == Positions(g[..i], Cannon)
    {
      structural, turrets, cannons, order := DeriveRow(body, i, structural, turrets, cannons, order);
      CountSnoc(g, i, Structural);
      PositionsSnoc(g, i, Turret);
      PositionsSnoc(g, i, Cannon);
      i := i + 1;
    }
    assert g[..i] == g;
    hull := structural / 3;
  }

  class SpaceObject {
    const kind: Kind
    const body: array2<int>
    var faction: string
    var cells: int
    var hull: Option<int>
    var turrets: map<Pos, int>
    var cannons: seq<Pos>
    var cannonCooldown: int
    var closeTargets: seq<real>
    var mediumTargets: seq<real>
    /** The list game_map.py's retargeting pass writes (it is not `closeTargets`). */
    var targets: seq<real>
    var destination: Option<(int, int)>
    var selected: bool
    /** Structural cells at construction minus the hull derived from them. */
    ghost var hullDeficit: int

    function Grid(): seq<seq<int>>
      reads body
    {
      GridOf(body)
    }

    function Counts(): Counters
      reads this
    {
      Counters(cells, hull, turrets, cannons)
    }

    /**
     * The counters agree with the grid (see `Consistent`), and every turret
     * cooldown and the cannon cooldown lie in [0, 160].
     */
    ghost predicate Valid()
      reads this, body
    {
      && body.Length0 > 0
      && Consistent(kind, Grid(), Counts(), hullDeficit)
      && (forall p :: p in turrets ==> 0 <= turrets[p] <= TurretCooldown)
      && 0 <= cannonCooldown <= CannonCooldown
    }

    /** Valid() survives any change that leaves the body and the weapons alone and keeps or drops the hull. */
    twostate lemma StillValid()
      requires unchanged(body)
      requires cells == old(cells) && turrets == old(turrets) && cannons == old(cannons)
      requires cannonCooldown == old(cannonCooldown) && hullDeficit == old(hullDeficit)
      requires hull == old(hull) || hull == None
      ensures old(Valid()) ==> Valid()
    {
    }

    /** `StarShip.__init__` (and `Corvette.__init__`), which reads `body[0]`. */
    constructor InitShip(kind: Kind, body: array2<int>, faction: string)
      requires !kind.Asteroid?
      requires body.Length0 > 0
      ensures Valid()
      ensures this.kind == kind && this.body == body && this.faction == faction
      ensures cells == Count(Grid(), Occupied)
      ensures hull == Some(Count(Grid(), Structural) / 3)
      ensures turrets.Keys == Where(Grid(), Turret)
      ensures forall p :: p in turrets ==> 0 <= turrets[p] <= TurretCooldown
      ensures cannons == Positions(Grid(), Cannon)
      ensures cannonCooldown == CannonCooldown
      ensures closeTargets == [] && mediumTargets == [] && targets == []
      ensures destination == None && !selected
    {
      this.kind := kind;
      this.body := body;
      this.faction := faction;
      var n := CountCells(body);
      var h, t, c := DeriveShipCounters(body);
      cells, hull, turrets, cannons := n, Some(h), t, c;
      cannonCooldown := CannonCooldown;
      closeTargets, mediumTargets, targets := [], [], [];
      destination, selected := None, false;
      hullDeficit := Count(GridOf(body), Structural) - h;
    }

    /** `Asteroid.__init__`: cells only, no hull. */
    constructor InitAsteroid(body: array2<int>, faction: string)
      requires body.Length0 > 0
      ensures Valid()
      ensures kind == Asteroid && this.body == body && this.faction == faction
      ensures cells == Count(Grid(), Occupied) && hull == None
    {
      kind := Asteroid;
      this.body := body;
      this.faction := faction;
      var n := CountCells(body);
      cells, hull := n, None;
      turrets, cannons := map[], [];
      cannonCooldown := CannonCooldown;
      closeTargets, mediumTargets, targets := [], [], [];
      destination, selected := None, false;
      hullDeficit := 0;
    }

    /**
     * The outcome of a hit at (x, y) (column x, row y) with tier `damage` on
     * an object whose grid was `g0` and counters `c0`: out of range nothing
     * changes and the hit did not land; in range the cell takes its `Struck`
     * code, the counters follow `AfterHit`, and the hit landed exactly when
     * the cell changed.
     */
    ghost predicate Damaged(g0: seq<seq<int>>, c0: Counters, x: int, y: int, damage: int, changed: bool)
      reads this, body
      requires !kind.StarShip?
    {
      if InGrid(g0, y, x) then
        && (changed <==> Struck(kind, g0[y][x], damage) != g0[y][x])
        && Grid() == Put(g0, y, x, Struck(kind, g0[y][x], damage))
        && Counts() == AfterHit(kind, g0[y][x], y, x, damage, c0)
      else
        !changed && Grid() == g0 && Counts() == c0
    }

    /**
     * `handel_damage`, dispatched on the class the object was built as; every
     * hit keeps the counters consistent with the grid.
     */
    method HandleDamage(x: int, y: int, damage: int) returns (changed: bool)
      requires Valid() && !kind.StarShip?
      modifies this`cells, this`hull, this`turrets, this`cannons, body
      ensures Valid()
      ensures Damaged(old(Grid()), old(Counts()), x, y, damage, changed)
      ensures hull.Some? == old(hull.Some?) && Survives(turrets, old(turrets))
      ensures 0 <= y < body.Length0 && 0 <= x < body.Length1 ==> body[y, x] == Struck(kind, old(body[y, x]), damage)
      ensures forall i, j :: 0 <= i < body.Length0 && 0 <= j < body.Length1 && (i, j) != (y, x)
                ==> body[i, j] == old(body[i, j])
    {
      ghost var g := Grid();
      if kind.Asteroid? {
        changed := AsteroidDamage(x, y, damage);
      } else {
        changed := CorvetteDamage(x, y, damage);
      }
      if 0 <= y < body.Length0 && 0 <= x < body.Length1 {
        GridOfPut(body, g, y, x);
        StrikeConsistent(kind, g, y, x, damage, old(Counts()), hullDeficit);
      } else {
        GridOfAgrees(body, g);
      }
    }

    /**
     * `Corvette.handel_damage` on cell (x, y): out of range nothing changes
     * and the result is false; in range the cell takes its `Struck` code, the
     * counters follow `AfterHit`, and the result says whether the cell changed.
     */
    method CorvetteDamage(x: int, y: int, damage: int) returns (changed: bool)
      requires kind.Corvette?
      modifies this`cells, this`hull, this`turrets, this`cannons, body
      ensures if 0 <= y < body.Length0 && 0 <= x < body.Length1 then
          && body[y, x] == Struck(kind, old(body[y, x]), damage)
          && Counts() == AfterHit(kind, old(body[y, x]), y, x, damage, old(Counts()))
          && (changed <==> body[y, x] != old(body[y, x]))
        else !changed && Counts() == old(Counts())
      ensures forall i, j :: 0 <= i < body.Length0 && 0 <= j < body.Length1 && (i, j) != (y, x)
                ==> body[i, j] == old(body[i, j])
    {
      if !(0 <= y < body.Length0 && 0 <= x < body.Length1) {
        return false;
      }
      var code := body[y, x];
      if code == Empty {
        changed := false;
      } else if code == HullCell {
        body[y, x] := Empty;
        if hull.Some? { hull := Some(hull.value - 1); }
        cells := cells - 1;
        changed := true;
      } else if code == Armour {
        if damage == 1 {
          body[y, x] := HullCell;
          changed := true;
        } else if damage == 2 {
          body[y, x] := Empty;
          if hull.Some? { hull := Some(hull.value - 1); }
          cells := cells - 1;
          changed := true;
        } else {
          changed := false;
        }
      } else if code == Turret {
        turrets := turrets - {(y, x)};
        body[y, x] := Empty;
        if hull.Some? { hull := Some(hull.value - 1); }
        cells := cells - 1;
        changed := true;
      } else if code == Cannon {
        cannons := RemoveFirst(cannons, (y, x));
        body[y, x] := Empty;
        if hull.Some? { hull := Some(hull.value - 1); }
        cells := cells - 1;
        changed := true;
      } else {
        changed := false;
      }
    }

    /** `Asteroid.handel_damage`: only hull and armour cells break, whatever the tier, and `hull` is never touched. */
    method AsteroidDamage(x: int, y: int, damage: int) returns (changed: bool)
      requires kind.Asteroid?
      modifies this`cells, body
      ensures if 0 <= y < body.Length0 && 0 <= x < body.Length1 then
          && body[y, x] == Struck(kind, old(body[y, x]), damage)
          && Counts() == AfterHit(kind, old(body[y, x]), y, x, damage, old(Counts()))
          && (changed <==> body[y, x] != old(body[y, x]))
        else !changed && Counts() == old(Counts())
      ensures forall i, j :: 0 <= i < body.Length0 && 0 <= j < body.Length1 && (i, j) != (y, x)
                ==> body[i, j] == old(body[i, j])
    {
      if !(0 <= y < body.Length0 && 0 <= x < body.Length1) {
        return false;
      }
      var code := body[y, x];
      if code == HullCell || code == Armour {
        body[y, x] := Empty;
        cells := cells - 1;
        changed := true;
      } else {
        changed := false;
      }
    }

    /**
     * The turrets' part of `Corvette.update` (the cannons' part follows in
     * `UpdateCannons`): only while there are close targets, every turret, in
     * the dict's row-major order, steps its cooldown and fires a tier-1
     * bullet, appended after `bullets`, when it runs out.
     */
    method UpdateTurrets(bullets: seq<Bullet>) returns (out: seq<Bullet>)
      requires Valid() && kind.Corvette?
      modifies this`turrets
      ensures Valid()
      ensures turrets.Keys == old(turrets).Keys
      ensures forall p :: p in turrets ==>
        turrets[p] == (if closeTargets != [] then TurretStep(old(turrets)[p]).counter else old(turrets)[p])
      ensures var turretShots := if closeTargets != [] then Firing(Positions(Grid(), Turret), old(turrets)) else 0;
        && |out| == |bullets| + turretShots
        && out[..|bullets|] == bullets
        && forall k :: |bullets| <= k < |out| ==>
             out[k].faction == faction && out[k].damage == 1 && out[k].lifetime == Lifetime(1)
    {
      out := bullets;
      if closeTargets != [] {
        var order := Positions(Grid(), Turret);
        PositionsNoDup(Grid(), Turret);
        forall p
          ensures p in turrets <==> p in order
        {
          assert p in turrets <==> p in Where(Grid(), Turret);
        }
        out := StepTurrets(order, bullets);
      }
    }

    /**
     * The loop over the turrets dict, whose iteration order is `order` (the
     * row-major order the constructor inserted the keys in): each turret
     * steps its cooldown, and each one that fires appends a tier-1 bullet.
     */
    method StepTurrets(order: seq<Pos>, bullets: seq<Bullet>) returns (out: seq<Bullet>)
      requires NoDup(order)
      requires forall p :: p in turrets <==> p in order
      modifies this`turrets
      ensures turrets.Keys == old(turrets).Keys
      ensures forall p :: p in turrets ==> turrets[p] == TurretStep(old(turrets)[p]).counter
      ensures |out| == |bullets| + Firing(order, old(turrets))
      ensures out[..|bullets|] == bullets
      ensures forall m :: |bullets| <= m < |out| ==> out[m].faction == faction && out[m].damage == 1
      ensures forall m :: |bullets| <= m < |out| ==> out[m].lifetime == Lifetime(1)
    {
      out := bullets;
      ghost var t0 := turrets;
      var k := 0;
      while k < |order|
        invariant 0 <= k <= |order|
        invariant SteppedTo(turrets, t0, order, k)
        invariant |out| == |bullets| + Firing(order[..k], t0)
        invariant out[..|bullets|] == bullets
        invariant TurretShots(out, |bullets|)
      {
        ghost var t := turrets;
        out := StepTurret(order[k], out, |bullets|);
        SteppedNext(t, t0, order, k);
        FiringNext(order, k, t0);
        k := k + 1;
      }
      assert order[..k] == order;
    }

    /** The turrets at order[..k] have stepped once from t0, the others not yet. */
    ghost predicate SteppedTo(t: map<Pos, int>, t0: map<Pos, int>, order: seq<Pos>, k: int)
    {
      && t.Keys == t0.Keys
      && forall m :: 0 <= m < |order| ==>
           order[m] in t && t[order[m]] == if m < k then TurretStep(t0[order[m]]).counter else t0[order[m]]
    }

    lemma SteppedNext(t: map<Pos, int>, t0: map<Pos, int>, order: seq<Pos>, k: int)
      requires NoDup(order) && 0 <= k < |order| && SteppedTo(t, t0, order, k)
      ensures SteppedTo(t[order[k] := TurretStep(t[order[k]]).counter], t0, order, k + 1)
    {
    }

    /** The bullets of `out` from index n on are fresh tier-1 shots of this object's faction. */
    ghost predicate TurretShots(out: seq<Bullet>, n: int)
      reads this`faction, out
    {
      forall m :: 0 <= n <= m < |out| ==> out[m].faction == faction && out[m].damage == 1 && out[m].lifetime == Lifetime(1)
    }

    /**
     * One turret of that loop: step its cooldown and, if it fires, append a
     * tier-1 bullet; the first n bullets stay as they were.
     */
    method StepTurret(p: Pos, bullets: seq<Bullet>, n: int) returns (out: seq<Bullet>)
      requires p in turrets && 0 <= n <= |bullets| && TurretShots(bullets, n)
      modifies this`turrets
      ensures turrets == old(turrets)[p := TurretStep(old(turrets)[p]).counter]
      ensures |out| == |bullets| + Ind(TurretStep(old(turrets)[p]).fired)
      ensures out[..n] == bullets[..n]
      ensures TurretShots(out, n)
    {
      out := bullets;
      var step := TurretStep(turrets[p]);
      if step.fired {
        var b := new Bullet(faction, 1);
        out := out + [b];
      }
      turrets := turrets[p := step.counter];
    }

    /**
     * The cannons' part of `Corvette.update`: the cooldown counts down while
     * positive; once it is 0, the first medium-range bearing that `aligned`
     * accepts (the firing-window test) makes every cannon fire a tier-2
     * bullet, appended after `bullets`, and resets the cooldown.
     */
    method UpdateCannons(bullets: seq<Bullet>, aligned: real -> bool) returns (out: seq<Bullet>)
      requires Valid() && kind.Corvette?
      modifies this`cannonCooldown
      ensures Valid()
      ensures cannonCooldown == CannonStep(old(cannonCooldown), Aimed(mediumTargets, aligned)).counter
      ensures var cannonShots := if CannonStep(old(cannonCooldown), Aimed(mediumTargets, aligned)).fired then |cannons| else 0;
        && |out| == |bullets| + cannonShots
        && out[..|bullets|] == bullets
        && forall k :: |bullets| <= k < |out| ==>
             out[k].faction == faction && out[k].damage == 2 && out[k].lifetime == Lifetime(2)
    {
      out := bullets;
      if cannonCooldown > 0 {
        cannonCooldown := cannonCooldown - 1;
      }
      var cannonsFire := false;
      if cannonCooldown == 0 {
        cannonsFire := FindAligned(mediumTargets, aligned);
      }
      if cannonsFire {
        out := FireCannons(bullets);
        cannonCooldown := CannonCooldown;
      }
    }

    /** The loop over the cannons: every cannon appends a tier-2 bullet after `bullets`. */
    method FireCannons(bullets: seq<Bullet>) returns (out: seq<Bullet>)
      ensures |out| == |bullets| + |cannons|
      ensures out[..|bullets|] == bullets
      ensures forall m :: |bullets| <= m < |out| ==>
        out[m].faction == faction && out[m].damage == 2 && out[m].lifetime == Lifetime(2)
    {
      out := bullets;
      var k := 0;
      while k < |cannons|
        invariant 0 <= k <= |cannons|
        invariant |out| == |bullets| + k
        invariant out[..|bullets|] == bullets
        invariant forall m :: |bullets| <= m < |out| ==>
          out[m].faction == faction && out[m].damage == 2 && out[m].lifetime == Lifetime(2)
      {
        var b := new Bullet(faction, 2);
        out := out + [b];
        k := k + 1;
      }
    }

    /**
     * `handel_collision`: this object (the striker) is run into `other`
     * cell by cell in row-major order; `toOther` stands for the float
     * transform from a striker cell to the cell of `other` it lands on. Both
     * grids end as `Collide` computes, and both objects stay consistent.
     */
    method HandleCollision(other: SpaceObject, toOther: Pos -> Pos)
      requires Valid() && other.Valid()
      requires !kind.StarShip? && !other.kind.StarShip?
      requires this != other && body != other.body
      modifies this`cells, this`hull, this`turrets, this`cannons, body
      modifies other`cells, other`hull, other`turrets, other`cannons, other.body
      ensures Valid() && other.Valid()
      ensures Grids(Grid(), other.Grid())
           == Collide(kind, other.kind, old(Grids(Grid(), other.Grid())), toOther, body.Length1, body.Length0, 0)
      ensures hull.Some? == old(hull.Some?) && Survives(turrets, old(turrets))
      ensures other.hull.Some? == old(other.hull.Some?) && Survives(other.turrets, old(other.turrets))
    {
      ghost var g := Grids(Grid(), other.Grid());
      ghost var h, t, oh, ot := hull.Some?, turrets, other.hull.Some?, other.turrets;
      CollideRows(other, toOther, g, h, t, oh, ot);
    }

    /** The outer loop of `handel_collision`: the striker's rows in order. */
    method CollideRows(other: SpaceObject, toOther: Pos -> Pos, ghost g: Grids,
                       ghost h: bool, ghost t: map<Pos, int>, ghost oh: bool, ghost ot: map<Pos, int>)
      requires !kind.StarShip? && !other.kind.StarShip?
      requires this != other && body != other.body
      requires CollidedTo(other, toOther, g, 0, 0, h, t, oh, ot)
      modifies this`cells, this`hull, this`turrets, this`cannons, body
      modifies other`cells, other`hull, other`turrets, other`cannons, other.body
      ensures CollidedTo(other, toOther, g, body.Length0, 0, h, t, oh, ot)
    {
      var y := 0;
      while y < body.Length0
        invariant 0 <= y <= body.Length0
        invariant CollidedTo(other, toOther, g, y, 0, h, t, oh, ot)
      {
        CollideRow(other, toOther, y, g, h, t, oh, ot);
        y := y + 1;
      }
    }

    /**
     * The state of `handel_collision` before striker cell (y, x), from grids
     * g: both objects consistent, both grids as `Collide` computes, hull
     * presence as h and oh, and only turrets lost from t and ot.
     */
    ghost predicate CollidedTo(other: SpaceObject, toOther: Pos -> Pos, g: Grids, y: int, x: int,
                               h: bool, t: map<Pos, int>, oh: bool, ot: map<Pos, int>)
      reads this, body, other, other.body
      requires !kind.StarShip? && !other.kind.StarShip?
    {
      && 0 <= y && 0 <= x
      && Valid() && other.Valid()
      && Grids(Grid(), other.Grid()) == Collide(kind, other.kind, g, toOther, body.Length1, y, x)
      && hull.Some? == h && Survives(turrets, t)
      && other.hull.Some? == oh && Survives(other.turrets, ot)
    }

    /** The inner loop of `handel_collision`: row y of the striker, cell by cell. */
    method CollideRow(other: SpaceObject, toOther: Pos -> Pos, y: int, ghost g: Grids,
                      ghost h: bool, ghost t: map<Pos, int>, ghost oh: bool, ghost ot: map<Pos, int>)
      requires !kind.StarShip? && !other.kind.StarShip?
      requires this != other && body != other.body
      requires 0 <= y < body.Length0
      requires CollidedTo(other, toOther, g, y, 0, h, t, oh, ot)
      modifies this`cells, this`hull, this`turrets, this`cannons, body
      modifies other`cells, other`hull, other`turrets, other`cannons, other.body
      ensures CollidedTo(other, toOther, g, y + 1, 0, h, t, oh, ot)
    {
      var x := 0;
      while x < body.Length1
        invariant 0 <= x <= body.Length1
        invariant CollidedTo(other, toOther, g, y, x, h, t, oh, ot)
      {
        ghost var t1, ot1 := turrets, other.turrets;
        CollideCell(other, toOther, y, x);
        SurvivesTrans(turrets, t1, t);
        SurvivesTrans(other.turrets, ot1, ot);
        x := x + 1;
      }
    }

    /** One iteration of `handel_collision`'s inner loop, at striker cell (x, y): `StrikeStep`. */
    method CollideCell(other: SpaceObject, toOther: Pos -> Pos, y: int, x: int)
      requires Valid() && other.Valid()
      requires !kind.StarShip? && !other.kind.StarShip?
      requires this != other && body != other.body
      requires 0 <= y < body.Length0 && 0 <= x < body.Length1
      modifies this`cells, this`hull, this`turrets, this`cannons, body
      modifies other`cells, other`hull, other`turrets, other`cannons, other.body
      ensures Valid() && other.Valid()
      ensures Grids(Grid(), other.Grid())
           == StrikeStep(kind, other.kind, old(Grids(Grid(), other.Grid())), toOther, (y, x))
      ensures hull.Some? == old(hull.Some?) && Survives(turrets, old(turrets))
      ensures other.hull.Some? == old(other.hull.Some?) && Survives(other.turrets, old(other.turrets))
    {
      ghost var ga, gb := Grid(), other.Grid();
      if body[y, x] != Empty {
        var q := toOther((y, x));
        var landed := other.HandleDamage(q.1, q.0, 2);
        assert landed <==> Landed(other.kind, gb, q);
        if InGrid(gb, q.0, q.1) && !landed {
          PutSame(gb, q.0, q.1);
        }
        assert Grid() == ga;
        ghost var gb' := other.Grid();
        if landed {
          var _ := HandleDamage(x, y, 2);
          assert other.Grid() == gb';
        }
      }
    }
  }

  /** The scan over the medium-range bearings for the first one in the firing window. */
  method FindAligned(targets: seq<real>, aligned: real -> bool) returns (found: bool)
    ensures found <==> Aimed(targets, aligned)
  {
    found := false;
    var k := 0;
    while k < |targets|
      invariant 0 <= k <= |targets|
      invariant forall m :: 0 <= m < k ==> !aligned(targets[m])
    {
      if aligned(targets[k]) {
        found := true;
        return;
      }
      k := k + 1;
    }
  }

  /** Some bearing in `targets` lies in the firing window. */
  predicate Aimed(targets: seq<real>, aligned: real -> bool)
  {
    exists k :: 0 <= k < |targets| && aligned(targets[k])
  }

  /** How many of the turrets at `order` fire on this tick. */
  function Firing(order: seq<Pos>, turrets: map<Pos, int>): nat
  {
    if order == [] then 0
    else
      var p := order[|order| - 1];
      Firing(order[..|order| - 1], turrets) + Ind(p in turrets && TurretStep(turrets[p]).fired)
  }

  lemma FiringNext(order: seq<Pos>, k: int, turrets: map<Pos, int>)
    requires 0 <= k < |order|
    ensures Firing(order[..k + 1], turrets)
         == Firing(order[..k], turrets) + Ind(order[k] in turrets && TurretStep(turrets[order[k]]).fired)
  {
    assert order[..k + 1][..k] == order[..k];
  }

  /** A projectile: its faction, damage tier and remaining lifetime in ticks. */
  class Bullet {
    const faction: string
    const damage: int
    var lifetime: int

    /** `Bullet.__init__`: 250 ticks for a turret shot, 500 for a cannon shot. */
    constructor (faction: string, damage: int)
      requires damage == 1 || damage == 2
      ensures this.faction == faction && this.damage == damage
      ensures lifetime == Lifetime(damage)
    {
      this.faction := faction;
      this.damage := damage;
      if damage == 1 {
        lifetime := 250;
      } else {
        lifetime := 500;
      }
    }

    /** `Bullet.update`: one tick off the lifetime. */
    method Update()
      modifies this`lifetime
      ensures lifetime == old(lifetime) - 1
    {
      lifetime := lifetime - 1;
    }
  }
}
