/**
 * The integer countdowns of spaceship.py: a turret's cooldown, the ship-wide
 * cannon cooldown and a bullet's lifetime, one tick at a time.
 */
module Weapons {
  import opened Cells

  /** turret_cooldown and total_cannon_cooldown, spaceship.py lines 11-12. */
  const TurretCooldown: int := 160
  const CannonCooldown: int := 160

  /** Bullet lifetimes by damage tier, spaceship.py lines 402-405. */
  function Lifetime(damage: int): (ticks: int)
    requires damage == 1 || damage == 2
    ensures damage == 1 ==> ticks == 250
    ensures damage == 2 ==> ticks == 500
  {
    if damage == 1 then 250 else 500
  }

  /** The counter after one tick and whether the weapon fired on it. */
  datatype Tick = Tick(counter: int, fired: bool)

  /**
   * One tick of a turret while the ship has close targets, as written:
   * decrement, and fire and reset only when the counter is exactly 0.
   */
  function TurretStepAsWritten(c: int): (t: Tick)
    ensures t.fired <==> c == 1
    ensures t.fired ==> t.counter == TurretCooldown
    ensures !t.fired ==> t.counter == c - 1
  {
    if c - 1 == 0 then Tick(TurretCooldown, true) else Tick(c - 1, false)
  }

  /** One turret tick with the reset taken at zero or below. */
  function TurretStep(c: int): (t: Tick)
    ensures t.fired <==> c <= 1
    ensures t.fired ==> t.counter == TurretCooldown
    ensures !t.fired ==> t.counter == c - 1
    ensures 0 <= c <= TurretCooldown ==> 1 <= t.counter <= TurretCooldown
  {
    if c - 1 <= 0 then Tick(TurretCooldown, true) else Tick(c - 1, false)
  }

  /**
   * One tick of the cannon cooldown (spaceship.py lines 272-293): decrement
   * while positive; fire when it is 0 and some medium-range bearing is in the
   * firing window, and then reset.
   */
  function CannonStep(c: int, aligned: bool): (t: Tick)
    ensures t.fired <==> (c == 0 || c == 1) && aligned
    ensures t.fired ==> t.counter == CannonCooldown
    ensures !t.fired ==> t.counter == (if c > 0 then c - 1 else c)
    ensures 0 <= c <= CannonCooldown ==> 0 <= t.counter <= CannonCooldown
  {
    var d := if c > 0 then c - 1 else c;
    if d == 0 && aligned then Tick(CannonCooldown, true) else Tick(d, false)
  }

  /** How many times a turret fires in n ticks. */
  function TurretShots(c: int, n: nat): nat
    decreases n
  {
    if n == 0 then 0
    else
      var t := TurretStep(c);
      Ind(t.fired) + TurretShots(t.counter, n - 1)
  }

  function TurretShotsAsWritten(c: int, n: nat): nat
    decreases n
  {
    if n == 0 then 0
    else
      var t := TurretStepAsWritten(c);
      Ind(t.fired) + TurretShotsAsWritten(t.counter, n - 1)
  }

  function TurretAfterAsWritten(c: int, n: nat): int
    decreases n
  {
    if n == 0 then c else TurretAfterAsWritten(TurretStepAsWritten(c).counter, n - 1)
  }

  function TurretAfter(c: int, n: nat): int
    decreases n
  {
    if n == 0 then c else TurretAfter(TurretStep(c).counter, n - 1)
  }

  /**
   * As written, a turret whose random phase (randint(0, 160)) came out as 0
   * counts down below zero and never fires: after n ticks its counter is -n.
   */
  lemma {:induction false} ZeroPhaseNeverFires(c: int, n: nat)
    requires c <= 0
    ensures TurretShotsAsWritten(c, n) == 0
    ensures TurretAfterAsWritten(c, n) == c - n
    decreases n
  {
    if n > 0 {
      ZeroPhaseNeverFires(c - 1, n - 1);
    }
  }

  /** The concrete input: phase 0, a full period of 160 ticks, no shot. */
  lemma ZeroPhaseCounterexample()
    ensures TurretShotsAsWritten(0, TurretCooldown) == 0
    ensures TurretAfterAsWritten(0, TurretCooldown) == -TurretCooldown
  {
    ZeroPhaseNeverFires(0, TurretCooldown);
  }

  /** The two steps agree exactly on the counters the corrected step never drives below 1. */
  lemma TurretStepsAgree(c: int)
    ensures TurretStepAsWritten(c) == TurretStep(c) <==> c >= 1
  {
  }

  /**
   * With the corrected step a turret with any phase c in [0, 160] fires first
   * on tick max(c, 1), and its counter is then back at 160.
   */
  lemma {:induction false} TurretFiresAfterPhase(c: int)
    requires 0 <= c <= TurretCooldown
    ensures TurretShots(c, (if c == 0 then 1 else c) - 1) == 0
    ensures TurretShots(c, if c == 0 then 1 else c) == 1
    ensures TurretAfter(c, if c == 0 then 1 else c) == TurretCooldown
    decreases c
  {
    if c > 1 {
      TurretFiresAfterPhase(c - 1);
    }
  }

  /** Shots and counter over m + n ticks compose. */
  lemma {:induction false} TurretSplit(c: int, m: nat, n: nat)
    ensures TurretShots(c, m + n) == TurretShots(c, m) + TurretShots(TurretAfter(c, m), n)
    ensures TurretAfter(c, m + n) == TurretAfter(TurretAfter(c, m), n)
    decreases m
  {
    if m > 0 {
      TurretSplit(TurretStep(c).counter, m - 1, n);
    }
  }

  /** With the corrected step, a turret fires exactly k times in k full periods. */
  lemma {:induction false} TurretPeriod(k: nat)
    ensures TurretShots(TurretCooldown, TurretCooldown * k) == k
    ensures TurretAfter(TurretCooldown, TurretCooldown * k) == TurretCooldown
    decreases k
  {
    if k > 0 {
      TurretSplit(TurretCooldown, TurretCooldown, TurretCooldown * (k - 1));
      TurretFiresAfterPhase(TurretCooldown);
      TurretPeriod(k - 1);
    }
  }

  /** Cannon cooldown and shots over n ticks with a target continuously in the window. */
  function CannonAfter(c: int, n: nat): int
    decreases n
  {
    if n == 0 then c else CannonAfter(CannonStep(c, true).counter, n - 1)
  }

  function CannonShots(c: int, n: nat): nat
    decreases n
  {
    if n == 0 then 0
    else
      var t := CannonStep(c, true);
      Ind(t.fired) + CannonShots(t.counter, n - 1)
  }

  lemma {:induction false} CannonFiresAfterCooldown(c: int)
    requires 1 <= c <= CannonCooldown
    ensures CannonShots(c, c) == 1
    ensures CannonAfter(c, c) == CannonCooldown
    decreases c
  {
    if c > 1 {
      CannonFiresAfterCooldown(c - 1);
    }
  }

  lemma {:induction false} CannonSplit(c: int, m: nat, n: nat)
    ensures CannonShots(c, m + n) == CannonShots(c, m) + CannonShots(CannonAfter(c, m), n)
    ensures CannonAfter(c, m + n) == CannonAfter(CannonAfter(c, m), n)
    decreases m
  {
    if m > 0 {
      CannonSplit(CannonStep(c, true).counter, m - 1, n);
    }
  }

  /**
   * Starting from the constructor's cooldown of 160, a ship that keeps a
   * target in its firing window fires its broadside exactly once every 160 ticks.
   */
  lemma {:induction false} CannonPeriod(k: nat)
    ensures CannonShots(CannonCooldown, CannonCooldown * k) == k
    ensures CannonAfter(CannonCooldown, CannonCooldown * k) == CannonCooldown
    decreases k
  {
    if k > 0 {
      CannonSplit(CannonCooldown, CannonCooldown, CannonCooldown * (k - 1));
      CannonFiresAfterCooldown(CannonCooldown);
      CannonPeriod(k - 1);
    }
  }
}
