/**
 * The world bookkeeping of game_map.py: the rosters of objects and ships,
 * the retarget countdown, the retargeting pass over pairs of ships, bullet
 * expiry, and the disable and removal steps over the objects.
 */
module GameMaps {
  import opened Cells
  import opened Optional
  import opened Weapons
  import opened Damage
  import opened Spaceship

  /** update_target_total_time, game_map.py line 6. */
  const UpdateTargetTotalTime: int := 5

  const Neutral: string := "neutral"
  const Player: string := "player"
  const Enemy: string := "enemy"

  /** The body both corvette kinds are built from (game_map.py lines 134-140 and 145-151). */
  const CorvetteBody: seq<seq<int>> :=
    [[2, 2, 2, 2, 0, 0, 0, 0, 0, 0],
     [2, 1, 1, 2, 2, 2, 2, 2, 0, 0],
     [0, 0, 1, 1, 3, 1, 1, 1, 2, 0],
     [0, 0, 0, 1, 1, 1, 1, 1, 3, 2],
     [0, 0, 1, 1, 3, 1, 1, 1, 2, 0],
     [2, 1, 1, 2, 2, 2, 2, 2, 0, 0],
     [2, 2, 2, 2, 0, 0, 0, 0, 0, 0]]

  // ---------------------------------------------------------------------
  // The retarget countdown

  /** One tick of `update_target_time`: decrement, and on reaching 0 retarget and reset to 5. */
  function TimerStep(t: int): (r: Tick)
    ensures r.fired <==> t == 1
    ensures r.counter == if t == 1 then UpdateTargetTotalTime else t - 1
    ensures 1 <= t <= UpdateTargetTotalTime ==> 1 <= r.counter <= UpdateTargetTotalTime
  {
    if t - 1 == 0 then Tick(UpdateTargetTotalTime, true) else Tick(t - 1, false)
  }

  function TimerAfter(t: int, n: nat): int
    decreases n
  {
    if n == 0 then t else TimerAfter(TimerStep(t).counter, n - 1)
  }

  /** How many retargeting passes n ticks run. */
  function Retargets(t: int, n: nat): nat
    decreases n
  {
    if n == 0 then 0 else Ind(TimerStep(t).fired) + Retargets(TimerStep(t).counter, n - 1)
  }

  /** From a counter of t in [1, 5], the first pass runs on tick t and the counter is back at 5. */
  lemma {:induction false} TimerFiresAfter(t: int)
    requires 1 <= t <= UpdateTargetTotalTime
    ensures Retargets(t, t) == 1
    ensures TimerAfter(t, t) == UpdateTargetTotalTime
    decreases t
  {
    if t > 1 {
      TimerFiresAfter(t - 1);
    }
  }

  lemma {:induction false} TimerSplit(t: int, m: nat, n: nat)
    ensures Retargets(t, m + n) == Retargets(t, m) + Retargets(TimerAfter(t, m), n)
    ensures TimerAfter(t, m + n) == TimerAfter(TimerAfter(t, m), n)
    decreases m
  {
    if m > 0 {
      TimerSplit(TimerStep(t).counter, m - 1, n);
    }
  }

  /** Starting from the constructor's 5, retargeting runs exactly once every 5 ticks. */
  lemma {:induction false} RetargetEveryFifthTick(k: nat)
    ensures Retargets(UpdateTargetTotalTime, UpdateTargetTotalTime * k) == k
    ensures TimerAfter(UpdateTargetTotalTime, UpdateTargetTotalTime * k) == UpdateTargetTotalTime
    decreases k
  {
    if k > 0 {
      TimerSplit(UpdateTargetTotalTime, UpdateTargetTotalTime, UpdateTargetTotalTime * (k - 1));
      TimerFiresAfter(UpdateTargetTotalTime);
      RetargetEveryFifthTick(k - 1);
    }
  }

  // ---------------------------------------------------------------------
  // The retargeting pass

  /**
   * Ships a and c of a roster with factions f target each other: both are
   * non-neutral, their factions differ, and the lower-indexed one finds the
   * other in range (`inRange` stands for the distance test).
   */
  predicate Qualifies(f: seq<string>, inRange: (int, int) -> bool, a: int, c: int)
  {
    && 0 <= a < |f| && 0 <= c < |f|
    && f[a] != Neutral && f[c] != Neutral && f[a] != f[c]
    && (if a < c then inRange(a, c) else inRange(c, a))
  }

  /**
   * The bearings ship k records for its partners among ships 0 .. u-1, in
   * index order; `bearing(k, a)` stands for the angle from ship k to ship a.
   */
  function Partners(f: seq<string>, inRange: (int, int) -> bool, bearing: (int, int) -> real, k: int, u: int): seq<real>
    decreases u
  {
    if u <= 0 then []
    else
      Partners(f, inRange, bearing, k, u - 1)
      + (if u - 1 != k && Qualifies(f, inRange, k, u - 1) then [bearing(k, u - 1)] else [])
  }

  /** The targets list of ship k after a whole pass. */
  function TargetsOf(f: seq<string>, inRange: (int, int) -> bool, bearing: (int, int) -> real, k: int): seq<real>
  {
    Partners(f, inRange, bearing, k, |f|)
  }

  /** Partner bearings come only from qualifying partners. */
  lemma {:induction false} PartnersSound(f: seq<string>, inRange: (int, int) -> bool, bearing: (int, int) -> real,
                                         k: int, u: int, t: real)
    requires t in Partners(f, inRange, bearing, k, u)
    ensures exists a :: 0 <= a < u && a != k && Qualifies(f, inRange, k, a) && t == bearing(k, a)
    decreases u
  {
    if u > 0 {
      if t in Partners(f, inRange, bearing, k, u - 1) {
        PartnersSound(f, inRange, bearing, k, u - 1, t);
      }
    }
  }

  /** Every qualifying partner below u is recorded. */
  lemma {:induction false} PartnersComplete(f: seq<string>, inRange: (int, int) -> bool, bearing: (int, int) -> real,
                                            k: int, u: int, a: int)
    requires 0 <= a < u && a != k && Qualifies(f, inRange, k, a)
    ensures bearing(k, a) in Partners(f, inRange, bearing, k, u)
    decreases u
  {
    if a < u - 1 {
      PartnersComplete(f, inRange, bearing, k, u - 1, a);
    }
  }

  /**
   * A ship with no faction to fight (neutral, or alone in its faction among
   * the in-range ships) records nothing; in particular a neutral ship's list
   * stays empty.
   */
  lemma {:induction false} NeutralHasNoTargets(f: seq<string>, inRange: (int, int) -> bool, bearing: (int, int) -> real,
                                               k: int, u: int)
    requires 0 <= k < |f| && f[k] == Neutral
    ensures Partners(f, inRange, bearing, k, u) == []
    decreases u
  {
    if u > 0 {
      NeutralHasNoTargets(f, inRange, bearing, k, u - 1);
    }
  }

  /**
   * A pass is mutual: when ships a and c qualify, each records the bearing
   * to the other; and every entry of a ship's list comes from a qualifying
   * pair, so ships of the same faction and neutral ships never target.
   */
  lemma PassIsMutual(f: seq<string>, inRange: (int, int) -> bool, bearing: (int, int) -> real, a: int, c: int)
    requires a != c && Qualifies(f, inRange, a, c)
    ensures bearing(a, c) in TargetsOf(f, inRange, bearing, a)
    ensures bearing(c, a) in TargetsOf(f, inRange, bearing, c)
  {
    PartnersComplete(f, inRange, bearing, a, |f|, c);
    PartnersComplete(f, inRange, bearing, c, |f|, a);
  }

  /**
   * How far the pass has got for ship m when the outer loop is at i and
   * the inner one at j: its list holds its partners below this bound.
   */
  function Reached(n: int, m: int, i: int, j: int): int
  {
    if m < i then n else if m == i then j else if m < j then i + 1 else i
  }

  /** Visiting pair (i, j) extends the lists of ships i and j by one step each and no other. */
  lemma ReachedStep(f: seq<string>, inRange: (int, int) -> bool, bearing: (int, int) -> real, n: int, i: int, j: int, m: int)
    requires 0 <= i < j < n && 0 <= m < n
    ensures Partners(f, inRange, bearing, m, Reached(n, m, i, j + 1))
      == Partners(f, inRange, bearing, m, Reached(n, m, i, j))
         + (if m == i && Qualifies(f, inRange, i, j) then [bearing(i, j)]
            else if m == j && Qualifies(f, inRange, j, i) then [bearing(j, i)]
            else [])
  {
  }

  /** The end of the inner loop for i is the start of the inner loop for i + 1. */
  lemma ReachedRowEnd(f: seq<string>, inRange: (int, int) -> bool, bearing: (int, int) -> real, n: int, i: int, m: int)
    requires 0 <= i < n && 0 <= m < n
    ensures Partners(f, inRange, bearing, m, Reached(n, m, i, n))
      == Partners(f, inRange, bearing, m, Reached(n, m, i + 1, i + 2))
  {
    if m == i + 1 {
      assert Partners(f, inRange, bearing, m, i + 2) == Partners(f, inRange, bearing, m, i + 1);
    }
  }

  // ---------------------------------------------------------------------
  // Removal from a list, as written and as intended

  /** `s` with the elements of `gone` left out, in order. */
  function Without<T>(s: seq<T>, gone: set<T>): (r: seq<T>)
    ensures forall x :: x in r ==> x in s && x !in gone
    ensures forall x :: x in s && x !in gone ==> x in r
    ensures |r| <= |s|
  {
    if s == [] then []
    else Without(s[..|s| - 1], gone) + (if s[|s| - 1] in gone then [] else [s[|s| - 1]])
  }

  lemma {:induction false} WithoutNoDup<T>(s: seq<T>, gone: set<T>)
    requires NoDup(s)
    ensures NoDup(Without(s, gone))
  {
    if s != [] {
      var s' := s[..|s| - 1];
      assert NoDup(s');
      WithoutNoDup(s', gone);
    }
  }

  lemma {:induction false} WithoutNothing<T>(s: seq<T>)
    ensures Without(s, {}) == s
  {
    if s != [] {
      WithoutNothing(s[..|s| - 1]);
      assert s[..|s| - 1] + [s[|s| - 1]] == s;
    }
  }

  /** Leaving out something the list does not hold changes nothing. */
  lemma {:induction false} WithoutAbsent<T>(s: seq<T>, gone: set<T>, x: T)
    requires x !in s
    ensures Without(s, gone + {x}) == Without(s, gone)
  {
    if s != [] {
      WithoutAbsent(s[..|s| - 1], gone, x);
    }
  }

  /** One more element of a list without repeats: it is either left out or kept at the end. */
  lemma WithoutSnoc<T>(s: seq<T>, k: int, gone: set<T>)
    requires NoDup(s) && 0 <= k < |s| && s[k] !in gone
    ensures Without(s[..k + 1], gone + {s[k]}) == Without(s[..k], gone)
    ensures Without(s[..k + 1], gone) == Without(s[..k], gone) + [s[k]]
  {
    assert s[..k + 1][..k] == s[..k];
    assert s[k] !in s[..k];
    WithoutAbsent(s[..k], gone, s[k]);
  }

  /** Python's `list.remove(x)` on a list without repeats leaves x out. */
  lemma {:induction false} RemoveFirstWithout<T>(s: seq<T>, gone: set<T>, x: T)
    requires NoDup(s) && x in s && x !in gone
    ensures RemoveFirst(Without(s, gone), x) == Without(s, gone + {x})
  {
    var s' := s[..|s| - 1];
    var z := s[|s| - 1];
    assert s == s' + [z];
    assert NoDup(s');
    var tail := if z in gone then [] else [z];
    if z == x {
      assert x !in s';
      WithoutAbsent(s', gone, x);
      RemoveFirstAppend(Without(s', gone), tail, x);
      assert RemoveFirst([x], x) == [];
      assert Without(s', gone) + [] == Without(s', gone);
    } else {
      assert x in s';
      RemoveFirstWithout(s', gone, x);
      RemoveFirstAppend(Without(s', gone), tail, x);
    }
  }

  /** Python's `list.remove(x)` when x is not yet left out, whether or not the list holds it. */
  lemma WithoutRemove<T>(s: seq<T>, gone: set<T>, x: T)
    requires NoDup(s) && x !in gone
    ensures RemoveFirst(Without(s, gone), x) == Without(s, gone + {x})
  {
    if x in s {
      RemoveFirstWithout(s, gone, x);
    } else {
      WithoutAbsent(s, gone, x);
    }
  }

  /**
   * `for item in list: ... list.remove(item)` as Python runs it: the
   * iterator walks an index over the live list, so after a removal the
   * next element slides into the visited slot and is skipped. Each visited
   * element is replaced by `step` of it, or removed when `drop` holds of
   * that new value; `i` is the iterator's index.
   */
  function LiveUpdate<T>(s: seq<T>, i: nat, step: T -> T, drop: T -> bool): (r: seq<T>)
    ensures |r| <= |s|
    ensures i >= |s| ==> r == s
    decreases |s| - i
  {
    if i >= |s| then s
    else
      var v := step(s[i]);
      if drop(v) then LiveUpdate(s[..i] + s[i + 1..], i + 1, step, drop)
      else LiveUpdate(s[i := v], i + 1, step, drop)
  }

  /** The elements the iterator has already passed are left as they are. */
  lemma {:induction false} LiveUpdateKeepsVisited<T>(s: seq<T>, i: nat, step: T -> T, drop: T -> bool, k: nat)
    requires k < i && k < |s|
    ensures k < |LiveUpdate(s, i, step, drop)| && LiveUpdate(s, i, step, drop)[k] == s[k]
    decreases |s| - i
  {
    if i < |s| {
      var v := step(s[i]);
      if drop(v) {
        var rest := s[..i] + s[i + 1..];
        assert rest[k] == s[k];
        LiveUpdateKeepsVisited(rest, i + 1, step, drop, k);
      } else {
        LiveUpdateKeepsVisited(s[i := v], i + 1, step, drop, k);
      }
    }
  }

  /** The loop as intended: every element is stepped and those that `drop` are removed. */
  function StepAll<T>(s: seq<T>, step: T -> T, drop: T -> bool): (r: seq<T>)
    ensures forall x :: x in r ==> !drop(x)
    ensures forall x :: x in s && !drop(step(x)) ==> step(x) in r
    ensures forall y :: y in r ==> exists x :: x in s && y == step(x)
    ensures |r| <= |s|
  {
    if s == [] then []
    else
      var v := step(s[|s| - 1]);
      StepAll(s[..|s| - 1], step, drop) + (if drop(v) then [] else [v])
  }

  /**
   * Two bullets that both expire on this tick (lifetimes [1, 1]): as
   * written one of them survives with its lifetime untouched; as intended
   * both are gone.
   */
  lemma LiveRemovalSkips()
    ensures LiveUpdate([1, 1], 0, (l: int) => l - 1, (l: int) => l == 0) == [1]
    ensures StepAll([1, 1], (l: int) => l - 1, (l: int) => l == 0) == []
  {
    var s: seq<int> := [1, 1];
    assert s[..0] + s[1..] == [1];
    assert [1][..1] == [1];
  }

  /**
   * The object loop of `update` removes from `space_objects` while walking
   * it, too: of two adjacent wrecks (neutral, no cells), the second slides
   * into the visited slot and is neither visited nor removed on this frame.
   * As intended, both go.
   */
  lemma LiveSweepSkips()
    ensures var w := Status(Neutral, 0, None, None, false);
      && LiveUpdate([w, w], 0, (st: Status) => AfterDisable(st, false), Wreck) == [w]
      && StepAll([w, w], (st: Status) => AfterDisable(st, false), Wreck) == []
  {
    var w := Status(Neutral, 0, None, None, false);
    var s := [w, w];
    assert s[..0] + s[1..] == [w];
  }

  /** As written, removing every element (all bullets expire) visits only every other one; four bullets leave two. */
  lemma LiveRemovalHalves()
    ensures LiveUpdate([1, 1, 1, 1], 0, (l: int) => l - 1, (l: int) => l == 0) == [1, 1]
  {
    var s: seq<int> := [1, 1, 1, 1];
    assert s[..0] + s[1..] == [1, 1, 1];
    var s1: seq<int> := [1, 1, 1];
    assert s1[..1] + s1[2..] == [1, 1];
  }

  // ---------------------------------------------------------------------
  // The map

  /** The factions of a roster, in order. */
  ghost function Factions(ships: seq<SpaceObject>): (f: seq<string>)
    reads ships
    ensures |f| == |ships| && forall k :: 0 <= k < |ships| ==> f[k] == ships[k].faction
  {
    if ships == [] then [] else Factions(ships[..|ships| - 1]) + [ships[|ships| - 1].faction]
  }

  /** The `StarShip(name, body, faction, ...)` call of `create_space_object`, with a fresh copy of the corvette body. */
  method NewCorvette(name: string, faction: string) returns (ship: SpaceObject)
    ensures fresh(ship) && fresh(ship.body)
    ensures ship.kind == StarShip && ship.Grid() == CorvetteBody && ship.Valid()
    ensures ship.faction == faction && !ship.selected && ship.targets == [] && ship.destination == None
  {
    var body := new int[7, 10]((i, j) requires 0 <= i < 7 && 0 <= j < 10 => CorvetteBody[i][j]);
    GridOfAgrees(body, CorvetteBody);
    ship := new SpaceObject.InitShip(StarShip, body, faction);
  }

  /** The fields of an object that the retargeting pass and bullet expiry leave alone. */
  datatype Status = Status(faction: string, cells: int, hull: Option<int>, destination: Option<(int, int)>, selected: bool)

  ghost function StatusOf(o: SpaceObject): Status
    reads o
  {
    Status(o.faction, o.cells, o.hull, o.destination, o.selected)
  }

  /**
   * The disable step on an object's fields (`in_selection`: it is in the
   * selected list): a hull of exactly 0 turns the object neutral, clears
   * its hull and destination and, for a selected player ship, its
   * selection; any other hull, None or negative included, leaves it as it is.
   */
  function AfterDisable(st: Status, inSelection: bool): Status
  {
    if st.hull == Some(0) then
      Status(Neutral, st.cells, None, None, st.selected && !(st.faction == Player && inSelection))
    else st
  }

  /** The removal test, taken after the disable step: neutral (or just disabled) with no cells left. */
  predicate Wreck(st: Status)
  {
    (st.faction == Neutral || st.hull == Some(0)) && st.cells <= 0
  }

  predicate Disabling(st: Status)
  {
    st.hull == Some(0)
  }

  /** The elements s[m], m < k, whose recorded status st[m] satisfies p. */
  function Picked<T>(s: seq<T>, st: seq<Status>, k: int, p: Status -> bool): set<T>
    requires 0 <= k <= |s| && |st| == |s|
    decreases k
  {
    if k == 0 then {} else Picked(s, st, k - 1, p) + (if p(st[k - 1]) then {s[k - 1]} else {})
  }

  lemma {:induction false} PickedIff<T>(s: seq<T>, st: seq<Status>, k: int, p: Status -> bool, j: int)
    requires NoDup(s) && 0 <= k <= |s| && |st| == |s| && 0 <= j < |s|
    ensures s[j] in Picked(s, st, k, p) <==> j < k && p(st[j])
    decreases k
  {
    if k > 0 {
      PickedIff(s, st, k - 1, p, j);
    }
  }

  lemma {:induction false} PickedIn<T>(s: seq<T>, st: seq<Status>, k: int, p: Status -> bool, x: T)
    requires 0 <= k <= |s| && |st| == |s| && x in Picked(s, st, k, p)
    ensures exists j :: 0 <= j < k && s[j] == x && p(st[j])
    decreases k
  {
    if x !in Picked(s, st, k - 1, p) {
      assert s[k - 1] == x && p(st[k - 1]);
    } else {
      PickedIn(s, st, k - 1, p, x);
    }
  }

  lemma PickedNext<T>(s: seq<T>, st: seq<Status>, k: int, p: Status -> bool)
    requires 0 <= k < |s| && |st| == |s|
    ensures Picked(s, st, k + 1, p) == Picked(s, st, k, p) + (if p(st[k]) then {s[k]} else {})
  {
  }

  /**
   * The rosters after the disable and removal steps at object s[k], given
   * that they were the lists less the objects picked before k.
   */
  lemma RosterStep<T>(s: seq<T>, st: seq<Status>, k: int, A0: seq<T>, P0: seq<T>, S0: seq<T>)
    requires NoDup(s) && NoDup(A0) && NoDup(P0) && NoDup(S0) && |st| == |s| && 0 <= k < |s|
    requires st[k].faction == Player <==> s[k] in P0
    requires s[k] in S0 ==> s[k] in P0
    ensures var o, W, W' := s[k], Picked(s, st, k, Wreck), Picked(s, st, k + 1, Wreck);
      && (if Wreck(st[k]) then RemoveFirst(Without(s, W), o) else Without(s, W)) == Without(s, W')
      && (if Wreck(st[k]) then RemoveFirst(Without(A0, W), o) else Without(A0, W)) == Without(A0, W')
    ensures var o, D, D' := s[k], Picked(s, st, k, Disabling), Picked(s, st, k + 1, Disabling);
      var cut := Disabling(st[k]) && st[k].faction == Player;
      && (if cut then RemoveFirst(Without(P0, D), o) else Without(P0, D)) == Without(P0, D')
      && (if cut then RemoveFirst(Without(S0, D), o) else Without(S0, D)) == Without(S0, D')
  {
    var o, D, W := s[k], Picked(s, st, k, Disabling), Picked(s, st, k, Wreck);
    PickedIff(s, st, k, Disabling, k);
    PickedIff(s, st, k, Wreck, k);
    PickedNext(s, st, k, Disabling);
    PickedNext(s, st, k, Wreck);
    if Disabling(st[k]) {
      if st[k].faction == Player {
        WithoutRemove(P0, D, o);
        WithoutRemove(S0, D, o);
      } else {
        WithoutAbsent(P0, D, o);
        WithoutAbsent(S0, D, o);
      }
    } else {
      assert D + {} == D;
    }
    if Wreck(st[k]) {
      WithoutRemove(s, W, o);
      WithoutRemove(A0, W, o);
    } else {
      assert W + {} == W;
    }
  }

  /**
   * The state of the object loop once the objects before s[k] are
   * processed, on values: the rosters are as SweptRosters says, and the
   * statuses and target lists of the objects as SweptRecords says.
   */
  predicate SweptVals<T(==)>(s: seq<T>, k: int, st: seq<Status>, sel: seq<bool>, tg: seq<seq<real>>,
                             A0: seq<T>, P0: seq<T>, S0: seq<T>,
                             objects: seq<T>, ships: seq<T>, players: seq<T>, chosen: seq<T>,
                             cur: seq<Status>, curTg: seq<seq<real>>)
  {
    && |st| == |s| && 0 <= k <= |s|
    && SweptRosters(s, k, st, A0, P0, S0, objects, ships, players, chosen)
    && SweptRecords(|s|, k, st, sel, tg, cur, curTg)
  }

  /** The rosters (objects, ships, players, chosen) are the starting lists less the objects picked before k. */
  predicate SweptRosters<T(==)>(s: seq<T>, k: int, st: seq<Status>, A0: seq<T>, P0: seq<T>, S0: seq<T>,
                                objects: seq<T>, ships: seq<T>, players: seq<T>, chosen: seq<T>)
    requires |st| == |s| && 0 <= k <= |s|
  {
    && objects == Without(s, Picked(s, st, k, Wreck))
    && ships == Without(A0, Picked(s, st, k, Wreck))
    && players == Without(P0, Picked(s, st, k, Disabling))
    && chosen == Without(S0, Picked(s, st, k, Disabling))
  }

  /**
   * The statuses cur of the objects before k carry the disable step's
   * effect and their target lists curTg are cleared where the step
   * disabled them; everything from k on is as recorded in st and tg.
   */
  predicate SweptRecords(n: int, k: int, st: seq<Status>, sel: seq<bool>, tg: seq<seq<real>>,
                         cur: seq<Status>, curTg: seq<seq<real>>)
  {
    && |st| == n && |sel| == n && |tg| == n && |cur| == n && |curTg| == n
    && (forall m :: 0 <= m < n ==> cur[m] == (if m < k then AfterDisable(st[m], sel[m]) else st[m]))
    && (forall m :: 0 <= m < n ==> curTg[m] == (if m < k && Disabling(st[m]) then [] else tg[m]))
  }

  /** One pass of the object loop, at s[k], advances SweptVals by one object. */
  lemma SweptValsStep<T>(s: seq<T>, k: int, st: seq<Status>, sel: seq<bool>, tg: seq<seq<real>>,
                         A0: seq<T>, P0: seq<T>, S0: seq<T>,
                         objects: seq<T>, ships: seq<T>, players: seq<T>, chosen: seq<T>,
                         cur: seq<Status>, curTg: seq<seq<real>>,
                         objects': seq<T>, ships': seq<T>, players': seq<T>, chosen': seq<T>,
                         cur': seq<Status>, curTg': seq<seq<real>>)
    requires NoDup(s) && NoDup(A0) && NoDup(P0) && NoDup(S0) && 0 <= k < |s|
    requires SweptVals(s, k, st, sel, tg, A0, P0, S0, objects, ships, players, chosen, cur, curTg)
    requires st[k].faction == Player <==> s[k] in P0
    requires s[k] in S0 ==> s[k] in P0
    requires objects' == (if Wreck(cur[k]) then RemoveFirst(objects, s[k]) else objects)
    requires ships' == (if Wreck(cur[k]) then RemoveFirst(ships, s[k]) else ships)
    requires players' == (if Disabling(cur[k]) && cur[k].faction == Player then RemoveFirst(players, s[k]) else players)
    requires chosen' == (if Disabling(cur[k]) && cur[k].faction == Player then RemoveFirst(chosen, s[k]) else chosen)
    requires cur' == cur[k := AfterDisable(cur[k], sel[k])]
    requires curTg' == curTg[k := if Disabling(cur[k]) then [] else curTg[k]]
    ensures SweptVals(s, k + 1, st, sel, tg, A0, P0, S0, objects', ships', players', chosen', cur', curTg')
  {
    assert cur[k] == st[k];
    SweptRostersStep(s, k, st, A0, P0, S0, objects, ships, players, chosen, objects', ships', players', chosen');
    SweptRecordsStep(|s|, k, st, sel, tg, cur, curTg, cur', curTg');
  }

  lemma SweptRostersStep<T>(s: seq<T>, k: int, st: seq<Status>, A0: seq<T>, P0: seq<T>, S0: seq<T>,
                            objects: seq<T>, ships: seq<T>, players: seq<T>, chosen: seq<T>,
                            objects': seq<T>, ships': seq<T>, players': seq<T>, chosen': seq<T>)
    requires NoDup(s) && NoDup(A0) && NoDup(P0) && NoDup(S0) && |st| == |s| && 0 <= k < |s|
    requires SweptRosters(s, k, st, A0, P0, S0, objects, ships, players, chosen)
    requires st[k].faction == Player <==> s[k] in P0
    requires s[k] in S0 ==> s[k] in P0
    requires objects' == (if Wreck(st[k]) then RemoveFirst(objects, s[k]) else objects)
    requires ships' == (if Wreck(st[k]) then RemoveFirst(ships, s[k]) else ships)
    requires players' == (if Disabling(st[k]) && st[k].faction == Player then RemoveFirst(players, s[k]) else players)
    requires chosen' == (if Disabling(st[k]) && st[k].faction == Player then RemoveFirst(chosen, s[k]) else chosen)
    ensures SweptRosters(s, k + 1, st, A0, P0, S0, objects', ships', players', chosen')
  {
    RosterStep(s, st, k, A0, P0, S0);
  }

  lemma SweptRecordsStep(n: int, k: int, st: seq<Status>, sel: seq<bool>, tg: seq<seq<real>>,
                         cur: seq<Status>, curTg: seq<seq<real>>, cur': seq<Status>, curTg': seq<seq<real>>)
    requires 0 <= k < n && SweptRecords(n, k, st, sel, tg, cur, curTg)
    requires cur' == cur[k := AfterDisable(cur[k], sel[k])]
    requires curTg' == curTg[k := if Disabling(cur[k]) then [] else curTg[k]]
    ensures SweptRecords(n, k + 1, st, sel, tg, cur', curTg')
  {
  }

  /** The bullets of s whose lifetime is used up. */
  ghost function Expired(s: seq<Bullet>): set<Bullet>
    reads s
  {
    set b | b in s && b.lifetime == 0
  }

  /** The lifetimes of the bullets of s, in order. */
  ghost function Lifetimes(s: seq<Bullet>): (r: seq<int>)
    reads s
    ensures |r| == |s| && forall k :: 0 <= k < |s| ==> r[k] == s[k].lifetime
  {
    if s == [] then [] else Lifetimes(s[..|s| - 1]) + [s[|s| - 1].lifetime]
  }

  /** The first k bullets of s whose lifetime, life0 before the loop, was 1: those the loop drops. */
  ghost function GoneAt(s: seq<Bullet>, life0: seq<int>, k: int): set<Bullet>
    requires 0 <= k <= |s| == |life0|
  {
    set m | 0 <= m < k && life0[m] == 1 :: s[m]
  }

  lemma GoneAtStep(s: seq<Bullet>, life0: seq<int>, k: int)
    requires NoDup(s) && 0 <= k < |s| == |life0|
    ensures s[k] !in GoneAt(s, life0, k)
    ensures GoneAt(s, life0, k + 1) == GoneAt(s, life0, k) + (if life0[k] == 1 then {s[k]} else {})
  {
  }

  /**
   * The bullet loop after k steps, from lifetimes life0: the first k bullets
   * ticked, the rest untouched, gone holds the ticked bullets at 0 and kept
   * the other ticked bullets in order.
   */
  ghost predicate Ticked(s: seq<Bullet>, life0: seq<int>, k: int, gone: set<Bullet>, kept: seq<Bullet>)
    reads s
  {
    && 0 <= k <= |s| && |life0| == |s|
    && (forall m :: 0 <= m < k ==> s[m].lifetime == life0[m] - 1)
    && (forall m :: k <= m < |s| ==> s[m].lifetime == life0[m])
    && gone == GoneAt(s, life0, k)
    && kept == Without(s[..k], gone)
  }

  /** The loop of the bullet phase over the list s: tick each bullet and keep those with time left. */
  method TickBullets(s: seq<Bullet>) returns (kept: seq<Bullet>)
    requires NoDup(s)
    modifies s`lifetime
    ensures forall m :: 0 <= m < |s| ==> s[m].lifetime == old(s[m].lifetime) - 1
    ensures kept == Without(s, Expired(s))
  {
    kept := [];
    ghost var gone: set<Bullet> := {};
    ghost var life0 := Lifetimes(s);
    for k := 0 to |s|
      invariant Ticked(s, life0, k, gone, kept)
    {
      kept, gone := TickAt(s, life0, k, kept, gone);
    }
    assert s[..|s|] == s;
    assert gone == Expired(s);
  }

  /** One step of the bullet loop: bullet k ticks and is kept or dropped. */
  method TickAt(s: seq<Bullet>, ghost life0: seq<int>, k: int, kept: seq<Bullet>, ghost gone: set<Bullet>)
    returns (kept': seq<Bullet>, ghost gone': set<Bullet>)
    requires NoDup(s) && 0 <= k < |s| && Ticked(s, life0, k, gone, kept)
    modifies s`lifetime
    ensures Ticked(s, life0, k + 1, gone', kept')
  {
    var bullet := s[k];
    bullet.Update();
    GoneAtStep(s, life0, k);
    WithoutSnoc(s, k, gone);
    if bullet.lifetime == 0 {
      kept', gone' := kept, gone + {bullet};
    } else {
      kept', gone' := kept + [bullet], gone;
    }
  }

  ghost function Statuses(ships: seq<SpaceObject>): (r: seq<Status>)
    reads ships
    ensures |r| == |ships| && forall k :: 0 <= k < |ships| ==> r[k] == StatusOf(ships[k])
  {
    if ships == [] then [] else Statuses(ships[..|ships| - 1]) + [StatusOf(ships[|ships| - 1])]
  }

  /** r is r0 with entry k replaced, when every other entry agrees. */
  lemma UpdatedAt<T>(r: seq<T>, r0: seq<T>, k: int)
    requires |r| == |r0| && 0 <= k < |r|
    requires forall m :: 0 <= m < |r| && m != k ==> r[m] == r0[m]
    ensures r == r0[k := r[k]]
  {
  }

  /** Statuses agree in two states when every object's status does. */
  twostate lemma StatusesKept(ships: seq<SpaceObject>)
    requires forall o :: o in ships ==> StatusOf(o) == old(StatusOf(o))
    ensures Statuses(ships) == old(Statuses(ships))
  {
  }

  ghost function TargetLists(ships: seq<SpaceObject>): (r: seq<seq<real>>)
    reads ships
    ensures |r| == |ships| && forall k :: 0 <= k < |ships| ==> r[k] == ships[k].targets
  {
    if ships == [] then [] else TargetLists(ships[..|ships| - 1]) + [ships[|ships| - 1].targets]
  }

  function Members<T(==)>(s: seq<T>, t: seq<T>): (r: seq<bool>)
    ensures |r| == |s| && forall k :: 0 <= k < |s| ==> (r[k] <==> s[k] in t)
  {
    if s == [] then [] else Members(s[..|s| - 1], t) + [s[|s| - 1] in t]
  }

  /** The names `GameMap.__init__` creates, in order; the start positions are not modelled. */
  const InitialFleet: seq<string> := ["corvette", "corvette", "corvette",
    "enemy_corvette", "enemy_corvette", "enemy_corvette", "enemy_corvette", "enemy_corvette",
    "enemy_corvette", "enemy_corvette", "enemy_corvette", "enemy_corvette"]

  class GameMap {
    var spaceObjects: seq<SpaceObject>
    var allShips: seq<SpaceObject>
    var playerShips: seq<SpaceObject>
    var selectedShips: seq<SpaceObject>
    var bullets: seq<Bullet>
    var updateTargetTime: int

    /** The rosters are consistent and the timer and bullets are in range. */
    ghost predicate Valid()
      reads this, spaceObjects, playerShips, bullets
    {
      Rosters() && Timed()
    }

    /**
     * The rosters: no repeats; player ships among all ships among the
     * objects; the player ships are exactly the objects of faction
     * 'player'; a player ship is selected exactly when it is in the
     * selected list.
     */
    ghost predicate Rosters()
      reads this`spaceObjects, this`allShips, this`playerShips, this`selectedShips, spaceObjects, playerShips
    {
      && NoDup(spaceObjects) && NoDup(allShips) && NoDup(playerShips) && NoDup(selectedShips)
      && (forall o :: o in allShips ==> o in spaceObjects)
      && (forall o :: o in playerShips ==> o in allShips && o.faction == Player)
      && (forall o :: o in spaceObjects && o.faction == Player ==> o in playerShips)
      && (forall o :: o in selectedShips ==> o in playerShips)
      && (forall o :: o in playerShips ==> (o.selected <==> o in selectedShips))
    }

    /** The bullet list has no repeats and the targeting countdown is in [1, 5]. */
    ghost predicate Timed()
      reads this`bullets, this`updateTargetTime
    {
      NoDup(bullets) && 1 <= updateTargetTime <= UpdateTargetTotalTime
    }

    /** The objects the disable step turns neutral: those whose hull is exactly 0 (see PickedIff). */
    ghost function Disabled(): set<SpaceObject>
      reads this`spaceObjects, spaceObjects
    {
      Picked(spaceObjects, Statuses(spaceObjects), |spaceObjects|, Disabling)
    }

    /** The objects the removal step deletes: neutral, or disabled now, and with no cells (see PickedIff). */
    ghost function Wrecks(): set<SpaceObject>
      reads this`spaceObjects, spaceObjects
    {
      Picked(spaceObjects, Statuses(spaceObjects), |spaceObjects|, Wreck)
    }

    /**
     * `GameMap.__init__`: empty rosters, the countdown at 5, then the twelve
     * `create_space_object` calls in order, three player and nine enemy corvettes.
     */
    constructor ()
      ensures Valid()
      ensures |spaceObjects| == 12 && allShips == spaceObjects && |playerShips| == 3
      ensures forall k :: 0 <= k < 12 ==> spaceObjects[k].faction == (if k < 3 then Player else Enemy)
      ensures selectedShips == [] && bullets == [] && updateTargetTime == UpdateTargetTotalTime
    {
      spaceObjects, allShips, playerShips, selectedShips, bullets := [], [], [], [], [];
      updateTargetTime := UpdateTargetTotalTime;
      new;
      // The source writes the twelve calls out one by one; `InitialFleet` lists their names in order.
      for k := 0 to |InitialFleet|
        invariant Valid()
        invariant |spaceObjects| == k && allShips == spaceObjects && |playerShips| == if k < 3 then k else 3
        invariant forall m :: 0 <= m < k ==> spaceObjects[m].faction == (if m < 3 then Player else Enemy)
        invariant selectedShips == [] && bullets == [] && updateTargetTime == UpdateTargetTotalTime
      {
        var _ := CreateSpaceObject(InitialFleet[k]);
      }
    }

    /**
     * `create_space_object`: a 'corvette' is a new 'player' ship added to
     * the player ships, all ships and objects; an 'enemy_corvette' a new
     * 'enemy' ship added to all ships and objects. Both are plain StarShip
     * objects with the corvette body. Any other name leaves the local
     * unbound and raises, so it is excluded.
     */
    method CreateSpaceObject(name: string) returns (ship: SpaceObject)
      requires Valid()
      requires name == "corvette" || name == "enemy_corvette"
      modifies this`spaceObjects, this`allShips, this`playerShips
      ensures Valid()
      ensures fresh(ship) && ship.kind == StarShip && ship.Grid() == CorvetteBody && ship.Valid()
      ensures ship.faction == (if name == "corvette" then Player else Enemy)
      ensures !ship.selected && ship.targets == [] && ship.destination == None
      ensures spaceObjects == old(spaceObjects) + [ship]
      ensures allShips == old(allShips) + [ship]
      ensures playerShips == if name == "corvette" then old(playerShips) + [ship] else old(playerShips)
    {
      ship := NewCorvette(name, if name == "corvette" then Player else Enemy);
      Register(ship);
    }

    /** The roster updates of `create_space_object` for a ship not yet on the map. */
    method Register(ship: SpaceObject)
      requires Valid()
      requires ship !in spaceObjects && !ship.selected
      requires ship.faction == Player || ship.faction == Enemy
      modifies this`spaceObjects, this`allShips, this`playerShips
      ensures Valid()
      ensures spaceObjects == old(spaceObjects) + [ship]
      ensures allShips == old(allShips) + [ship]
      ensures playerShips == if ship.faction == Player then old(playerShips) + [ship] else old(playerShips)
    {
      if ship.faction == Player {
        playerShips := playerShips + [ship];
      }
      allShips := allShips + [ship];
      spaceObjects := spaceObjects + [ship];
    }

    /** The targets lists once the pass has reached pair (i, j); see Reached. */
    ghost predicate Progress(f: seq<string>, inRange: (int, int) -> bool, bearing: (int, int) -> real, i: int, j: int)
      reads this, allShips
    {
      |f| == |allShips| &&
      forall m :: 0 <= m < |f| ==> allShips[m].targets == Partners(f, inRange, bearing, m, Reached(|f|, m, i, j))
    }

    /** Every ship's other fields are as recorded in st. */
    ghost predicate Kept(st: seq<Status>)
      reads this, allShips
    {
      |st| == |allShips| && forall m :: 0 <= m < |st| ==> StatusOf(allShips[m]) == st[m]
    }

    /**
     * The inner body of the retargeting pass for ships i < j of `all_ships`
     * (f holds their factions): when the pair qualifies each ship appends
     * the bearing to the other.
     */
    method RetargetPair(i: int, j: int, inRange: (int, int) -> bool, bearing: (int, int) -> real,
                        ghost f: seq<string>, ghost st: seq<Status>)
      requires 0 <= i < j < |allShips| && NoDup(allShips)
      requires Kept(st) && |f| == |st| && forall m :: 0 <= m < |f| ==> st[m].faction == f[m]
      requires Progress(f, inRange, bearing, i, j)
      modifies allShips`targets
      ensures Kept(st) && Progress(f, inRange, bearing, i, j + 1)
    {
      var ship1, ship2 := allShips[i], allShips[j];
      assert ship1.faction == f[i] && ship2.faction == f[j];
      label pre:
      if ship1.faction != Neutral && ship2.faction != Neutral && ship1.faction != ship2.faction && inRange(i, j) {
        ship1.targets := ship1.targets + [bearing(i, j)];
        ship2.targets := ship2.targets + [bearing(j, i)];
      }
      forall m | 0 <= m < |f|
        ensures StatusOf(allShips[m]) == st[m]
        ensures allShips[m].targets == Partners(f, inRange, bearing, m, Reached(|f|, m, i, j + 1))
      {
        ReachedStep(f, inRange, bearing, |f|, i, j, m);
        if m != i && m != j {
          assert allShips[m] != ship1 && allShips[m] != ship2;
        }
      }
    }

    /** `for ship in all_ships: ship.targets = []`. */
    method ClearTargets(ghost f: seq<string>, inRange: (int, int) -> bool, bearing: (int, int) -> real, ghost st: seq<Status>)
      requires NoDup(allShips) && Kept(st) && |f| == |allShips|
      modifies allShips`targets
      ensures Kept(st) && Progress(f, inRange, bearing, 0, 1)
    {
      for k := 0 to |allShips|
        invariant Kept(st)
        invariant forall m :: 0 <= m < k ==> allShips[m].targets == []
      {
        allShips[k].targets := [];
      }
    }

    /** The inner loop of the retargeting pass for ship i: the pairs (i, j) for every j after i. */
    method RetargetRow(i: int, inRange: (int, int) -> bool, bearing: (int, int) -> real,
                       ghost f: seq<string>, ghost st: seq<Status>)
      requires 0 <= i < |allShips| && NoDup(allShips)
      requires Kept(st) && |f| == |st| && forall m :: 0 <= m < |f| ==> st[m].faction == f[m]
      requires Progress(f, inRange, bearing, i, i + 1)
      modifies allShips`targets
      ensures Kept(st) && Progress(f, inRange, bearing, i + 1, i + 2)
    {
      for j := i + 1 to |allShips|
        invariant Kept(st) && Progress(f, inRange, bearing, i, j)
      {
        RetargetPair(i, j, inRange, bearing, f, st);
      }
      forall m | 0 <= m < |f|
        ensures allShips[m].targets == Partners(f, inRange, bearing, m, Reached(|f|, m, i + 1, i + 2))
      {
        ReachedRowEnd(f, inRange, bearing, |f|, i, m);
      }
    }

    /**
     * The retargeting pass of `update`: every ship's list is emptied, then
     * each pair i < j is visited in order. Afterwards ship k holds exactly
     * the bearings to its qualifying partners in index order, and nothing
     * else about any ship has changed.
     */
    method Retarget(inRange: (int, int) -> bool, bearing: (int, int) -> real)
      requires NoDup(allShips)
      modifies allShips`targets
      ensures forall k :: 0 <= k < |allShips| ==>
        allShips[k].targets == TargetsOf(old(Factions(allShips)), inRange, bearing, k)
      ensures forall k :: 0 <= k < |allShips| ==> StatusOf(allShips[k]) == old(StatusOf(allShips[k]))
    {
      ghost var f, st := Factions(allShips), Statuses(allShips);
      ClearTargets(f, inRange, bearing, st);
      RetargetRows(inRange, bearing, f, st);
    }

    /** The outer loop of the retargeting pass, once every list is empty. */
    method RetargetRows(inRange: (int, int) -> bool, bearing: (int, int) -> real, ghost f: seq<string>, ghost st: seq<Status>)
      requires NoDup(allShips)
      requires Kept(st) && |f| == |st| && forall m :: 0 <= m < |f| ==> st[m].faction == f[m]
      requires Progress(f, inRange, bearing, 0, 1)
      modifies allShips`targets
      ensures Kept(st) && Progress(f, inRange, bearing, |f|, |f| + 1)
    {
      for i := 0 to |allShips|
        invariant Kept(st) && Progress(f, inRange, bearing, i, i + 1)
      {
        RetargetRow(i, inRange, bearing, f, st);
      }
    }

    /**
     * The bullet phase of `update` done safely: every bullet ticks once and
     * those whose lifetime reached 0 leave the list, the rest keeping their order.
     */
    method ExpireBullets()
      requires Valid()
      modifies this`bullets, bullets`lifetime
      ensures Valid()
      ensures forall m :: 0 <= m < |old(bullets)| ==> old(bullets)[m].lifetime == old(bullets[m].lifetime) - 1
      ensures bullets == Without(old(bullets), Expired(old(bullets)))
      ensures forall b :: b in bullets ==> b.lifetime != 0
      ensures spaceObjects == old(spaceObjects) && allShips == old(allShips)
      ensures playerShips == old(playerShips) && selectedShips == old(selectedShips)
      ensures updateTargetTime == old(updateTargetTime)
      ensures unchanged(spaceObjects)
    {
      bullets := TickBullets(bullets);
      WithoutNoDup(old(bullets), Expired(old(bullets)));
      RostersKept();
    }

    /**
     * The first block of `update`: the timer ticks, and when it fires the
     * retargeting pass runs over `all_ships` and the timer is reset.
     */
    method UpdateTargets(inRange: (int, int) -> bool, bearing: (int, int) -> real)
      requires Valid()
      modifies this`updateTargetTime, allShips`targets
      ensures Valid()
      ensures updateTargetTime == TimerStep(old(updateTargetTime)).counter
      ensures forall k :: 0 <= k < |allShips| ==>
        allShips[k].targets == if TimerStep(old(updateTargetTime)).fired
                               then TargetsOf(old(Factions(allShips)), inRange, bearing, k)
                               else old(allShips[k].targets)
      ensures forall o :: o in spaceObjects ==> StatusOf(o) == old(StatusOf(o))
      ensures Statuses(spaceObjects) == old(Statuses(spaceObjects))
      ensures Wrecks() == old(Wrecks()) && Disabled() == old(Disabled())
      ensures spaceObjects == old(spaceObjects) && allShips == old(allShips)
      ensures playerShips == old(playerShips) && selectedShips == old(selectedShips)
      ensures bullets == old(bullets)
    {
      var t := TimerStep(updateTargetTime);
      RetargetIf(t.fired, inRange, bearing);
      label retargeted:
      updateTargetTime := t.counter;
      ObjectsKept@retargeted();
    }

    /** Nothing the map's objects hold changes when only the map's own scalar fields do. */
    twostate lemma ObjectsKept()
      requires spaceObjects == old(spaceObjects) && allShips == old(allShips)
      requires playerShips == old(playerShips) && selectedShips == old(selectedShips)
      requires unchanged(spaceObjects) && unchanged(allShips)
      ensures forall o :: o in spaceObjects ==> StatusOf(o) == old(StatusOf(o))
      ensures forall k :: 0 <= k < |allShips| ==> allShips[k].targets == old(allShips[k].targets)
      ensures Statuses(spaceObjects) == old(Statuses(spaceObjects)) && Factions(allShips) == old(Factions(allShips))
      ensures Wrecks() == old(Wrecks()) && Disabled() == old(Disabled())
      ensures old(Rosters()) ==> Rosters()
    {
    }

    /** The retargeting pass when `fired` holds; otherwise nothing changes. */
    method RetargetIf(fired: bool, inRange: (int, int) -> bool, bearing: (int, int) -> real)
      requires Rosters()
      modifies allShips`targets
      ensures Rosters()
      ensures forall k :: 0 <= k < |allShips| ==>
        allShips[k].targets == if fired then TargetsOf(old(Factions(allShips)), inRange, bearing, k)
                               else old(allShips[k].targets)
      ensures forall o :: o in spaceObjects ==> StatusOf(o) == old(StatusOf(o))
      ensures Statuses(spaceObjects) == old(Statuses(spaceObjects))
      ensures Wrecks() == old(Wrecks()) && Disabled() == old(Disabled())
      ensures spaceObjects == old(spaceObjects) && allShips == old(allShips)
      ensures playerShips == old(playerShips) && selectedShips == old(selectedShips)
      ensures bullets == old(bullets) && updateTargetTime == old(updateTargetTime)
    {
      if fired {
        RetargetMap(inRange, bearing);
      }
    }

    /** The retargeting pass on the map: only target lists change, so the rosters stay consistent. */
    method RetargetMap(inRange: (int, int) -> bool, bearing: (int, int) -> real)
      requires Rosters()
      modifies allShips`targets
      ensures Rosters()
      ensures forall k :: 0 <= k < |allShips| ==>
        allShips[k].targets == TargetsOf(old(Factions(allShips)), inRange, bearing, k)
      ensures Statuses(spaceObjects) == old(Statuses(spaceObjects))
      ensures Wrecks() == old(Wrecks()) && Disabled() == old(Disabled())
      ensures forall o :: o in spaceObjects ==> StatusOf(o) == old(StatusOf(o))
      ensures spaceObjects == old(spaceObjects) && allShips == old(allShips)
      ensures playerShips == old(playerShips) && selectedShips == old(selectedShips)
      ensures bullets == old(bullets) && updateTargetTime == old(updateTargetTime)
      ensures forall k :: 0 <= k < |allShips| && old(allShips[k].Valid()) ==> allShips[k].Valid()
    {
      Retarget(inRange, bearing);
      forall k | 0 <= k < |allShips|
        ensures old(allShips[k].Valid()) ==> allShips[k].Valid()
      {
        allShips[k].StillValid();
      }
      StatusesKept(spaceObjects);
      RostersKeptStatus();
    }

    /** The rosters stay consistent when neither the lists nor their objects change. */
    twostate lemma RostersKept()
      requires old(Rosters())
      requires spaceObjects == old(spaceObjects) && allShips == old(allShips)
      requires playerShips == old(playerShips) && selectedShips == old(selectedShips)
      requires unchanged(spaceObjects) && unchanged(playerShips)
      ensures Rosters()
    {
    }

    /** The rosters stay consistent when the lists and every object's status stay. */
    twostate lemma RostersKeptStatus()
      requires old(Rosters())
      requires spaceObjects == old(spaceObjects) && allShips == old(allShips)
      requires playerShips == old(playerShips) && selectedShips == old(selectedShips)
      requires forall o :: o in spaceObjects ==> StatusOf(o) == old(StatusOf(o))
      ensures Rosters()
    {
    }

    /** Valid() survives any change that keeps the rosters, the bullets and every object's status. */
    twostate lemma ValidKept()
      requires old(Valid())
      requires spaceObjects == old(spaceObjects) && allShips == old(allShips)
      requires playerShips == old(playerShips) && selectedShips == old(selectedShips)
      requires forall o :: o in spaceObjects ==> StatusOf(o) == old(StatusOf(o))
      requires bullets == old(bullets) && Timed()
      ensures Valid()
    {
    }

    /**
     * One frame of `update`, with the per-object `update` call left out:
     * the targeting block, then the bullet loop and the object loop, both
     * done over a snapshot so that no element is skipped.
     */
    method Update(inRange: (int, int) -> bool, bearing: (int, int) -> real)
      requires Valid()
      modifies this`updateTargetTime, this`bullets, this`playerShips, this`selectedShips, this`spaceObjects, this`allShips
      modifies allShips`targets, spaceObjects`faction, spaceObjects`targets, spaceObjects`destination, spaceObjects`hull, spaceObjects`selected, bullets`lifetime
      ensures Valid()
      ensures updateTargetTime == TimerStep(old(updateTargetTime)).counter
      ensures spaceObjects == Without(old(spaceObjects), old(Wrecks()))
      ensures allShips == Without(old(allShips), old(Wrecks()))
      ensures playerShips == Without(old(playerShips), old(Disabled()))
      ensures selectedShips == Without(old(selectedShips), old(Disabled()))
    {
      UpdateTargets(inRange, bearing);
      ExpireBullets();
      Sweep();
    }

    /**
     * The disable and removal steps of `update` for one object o: a hull
     * of exactly 0 takes a player ship off the player and selected lists
     * and neutralises the object; then a neutral object with no cells
     * leaves the objects and ships. Python's `list.remove` raises on a
     * missing player ship, hence the precondition.
     */
    method SweepOne(o: SpaceObject)
      requires o.faction == Player ==> o in playerShips
      modifies this`playerShips, this`selectedShips, this`spaceObjects, this`allShips, o`faction, o`targets, o`destination, o`hull, o`selected
      ensures var cut := old(o.hull) == Some(0) && old(o.faction) == Player;
        && playerShips == (if cut then RemoveFirst(old(playerShips), o) else old(playerShips))
        && selectedShips == (if cut then RemoveFirst(old(selectedShips), o) else old(selectedShips))
      ensures spaceObjects == (if Wreck(old(StatusOf(o))) then RemoveFirst(old(spaceObjects), o) else old(spaceObjects))
      ensures allShips == (if Wreck(old(StatusOf(o))) then RemoveFirst(old(allShips), o) else old(allShips))
      ensures StatusOf(o) == AfterDisable(old(StatusOf(o)), o in old(selectedShips))
      ensures o.targets == if old(o.hull) == Some(0) then [] else old(o.targets)
      ensures bullets == old(bullets) && updateTargetTime == old(updateTargetTime)
      ensures old(o.Valid()) ==> o.Valid()
    {
      DisableOne(o);
      RemoveIfWreck(o);
    }

    /**
     * The disable step for o: a hull of exactly 0 takes a player ship off
     * the player list (and, when selected, the selected list) and
     * neutralises the object.
     */
    method DisableOne(o: SpaceObject)
      requires o.faction == Player ==> o in playerShips
      modifies this`playerShips, this`selectedShips, o`faction, o`targets, o`destination, o`hull, o`selected
      ensures var cut := old(o.hull) == Some(0) && old(o.faction) == Player;
        && playerShips == (if cut then RemoveFirst(old(playerShips), o) else old(playerShips))
        && selectedShips == (if cut then RemoveFirst(old(selectedShips), o) else old(selectedShips))
      ensures StatusOf(o) == AfterDisable(old(StatusOf(o)), o in old(selectedShips))
      ensures o.targets == if old(o.hull) == Some(0) then [] else old(o.targets)
      ensures spaceObjects == old(spaceObjects) && allShips == old(allShips)
      ensures bullets == old(bullets) && updateTargetTime == old(updateTargetTime)
      ensures old(o.Valid()) ==> o.Valid()
    {
      if o.hull.Some? && o.hull.value == 0 {
        if o.faction == Player {
          playerShips := RemoveFirst(playerShips, o);
          if o in selectedShips {
            o.selected := false;
            selectedShips := RemoveFirst(selectedShips, o);
          }
        }
        o.faction := Neutral;
        o.targets := [];
        o.destination := None;
        o.hull := None;
      }
      o.StillValid();
    }

    /** The removal step for o: a neutral object with no cells leaves the objects and the ships. */
    method RemoveIfWreck(o: SpaceObject)
      modifies this`spaceObjects, this`allShips
      ensures var gone := o.faction == Neutral && o.cells <= 0;
        && spaceObjects == (if gone then RemoveFirst(old(spaceObjects), o) else old(spaceObjects))
        && allShips == (if gone then RemoveFirst(old(allShips), o) else old(allShips))
    {
      if o.faction == Neutral && o.cells <= 0 {
        spaceObjects := RemoveFirst(spaceObjects, o);
        if o in allShips {
          allShips := RemoveFirst(allShips, o);
        }
      }
    }

    /**
     * The loop of `update` over the objects, done safely over a snapshot:
     * the disabled objects (hull exactly 0) leave the player and selected
     * lists and are neutralised, and the wrecks leave the objects and
     * ships; everything else stays, in order.
     */
    method Sweep()
      requires Valid()
      modifies this`playerShips, this`selectedShips, this`spaceObjects, this`allShips, spaceObjects`faction, spaceObjects`targets, spaceObjects`destination, spaceObjects`hull, spaceObjects`selected
      ensures Valid()
      ensures spaceObjects == Without(old(spaceObjects), old(Wrecks()))
      ensures allShips == Without(old(allShips), old(Wrecks()))
      ensures playerShips == Without(old(playerShips), old(Disabled()))
      ensures selectedShips == Without(old(selectedShips), old(Disabled()))
      ensures forall m :: 0 <= m < |old(spaceObjects)| ==>
        StatusOf(old(spaceObjects)[m]) == AfterDisable(old(StatusOf(spaceObjects[m])), old(spaceObjects[m] in selectedShips))
      ensures forall m :: 0 <= m < |old(spaceObjects)| ==>
        old(spaceObjects)[m].targets == if old(spaceObjects[m].hull) == Some(0) then [] else old(spaceObjects[m].targets)
      ensures bullets == old(bullets) && updateTargetTime == old(updateTargetTime)
    {
      var s := spaceObjects;
      ghost var A0, P0, S0 := allShips, playerShips, selectedShips;
      ghost var st, sel, tg := Statuses(s), Members(s, S0), TargetLists(s);
      ghost var W, D := Wrecks(), Disabled();
      SweepAll(s, st, sel, tg, A0, P0, S0, W, D);
      SweepFinish(s, st, sel, tg, A0, P0, S0, W, D);
    }

    /** The loop of Sweep, in terms of the snapshot taken at its start. */
    method SweepAll(s: seq<SpaceObject>, ghost st: seq<Status>, ghost sel: seq<bool>, ghost tg: seq<seq<real>>,
                    ghost A0: seq<SpaceObject>, ghost P0: seq<SpaceObject>, ghost S0: seq<SpaceObject>,
                    ghost W: set<SpaceObject>, ghost D: set<SpaceObject>)
      requires Valid()
      requires s == spaceObjects && A0 == allShips && P0 == playerShips && S0 == selectedShips
      requires st == Statuses(s) && sel == Members(s, S0) && tg == TargetLists(s)
      requires W == Wrecks() && D == Disabled()
      modifies this`playerShips, this`selectedShips, this`spaceObjects, this`allShips, s`faction, s`targets, s`destination, s`hull, s`selected
      ensures SweepStart(s, st, sel, A0, P0, S0) && SweptUpTo(s, |s|, st, sel, tg, A0, P0, S0)
      ensures W == Picked(s, st, |s|, Wreck) && D == Picked(s, st, |s|, Disabling)
      ensures bullets == old(bullets) && updateTargetTime == old(updateTargetTime)
    {
      ValidSweepStart(s, st, sel, tg, A0, P0, S0);
      assert W == Picked(s, st, |s|, Wreck) && D == Picked(s, st, |s|, Disabling);
      SweepLoop(s, st, sel, tg, A0, P0, S0);
    }

    /** What the finished loop means for the rosters, the statuses and the target lists. */
    lemma SweepFinish(s: seq<SpaceObject>, st: seq<Status>, sel: seq<bool>, tg: seq<seq<real>>,
                      A0: seq<SpaceObject>, P0: seq<SpaceObject>, S0: seq<SpaceObject>,
                      W: set<SpaceObject>, D: set<SpaceObject>)
      requires SweepStart(s, st, sel, A0, P0, S0) && SweptUpTo(s, |s|, st, sel, tg, A0, P0, S0)
      requires W == Picked(s, st, |s|, Wreck) && D == Picked(s, st, |s|, Disabling)
      requires Timed()
      ensures Valid()
      ensures spaceObjects == Without(s, W) && allShips == Without(A0, W)
      ensures playerShips == Without(P0, D) && selectedShips == Without(S0, D)
      ensures forall m :: 0 <= m < |s| ==> StatusOf(s[m]) == AfterDisable(st[m], sel[m])
      ensures forall m :: 0 <= m < |s| ==> s[m].targets == if Disabling(st[m]) then [] else tg[m]
    {
      SweepKeepsValid(s, st, sel, tg, A0, P0, S0);
    }

    /** The loop itself: every object of the snapshot in turn. */
    method SweepLoop(s: seq<SpaceObject>, ghost st: seq<Status>, ghost sel: seq<bool>, ghost tg: seq<seq<real>>,
                     ghost A0: seq<SpaceObject>, ghost P0: seq<SpaceObject>, ghost S0: seq<SpaceObject>)
      requires SweepStart(s, st, sel, A0, P0, S0) && SweptUpTo(s, 0, st, sel, tg, A0, P0, S0)
      modifies this`playerShips, this`selectedShips, this`spaceObjects, this`allShips, s`faction, s`targets, s`destination, s`hull, s`selected
      ensures SweptUpTo(s, |s|, st, sel, tg, A0, P0, S0)
      ensures bullets == old(bullets) && updateTargetTime == old(updateTargetTime)
    {
      for k := 0 to |s|
        invariant SweptUpTo(s, k, st, sel, tg, A0, P0, S0)
        invariant bullets == old(bullets) && updateTargetTime == old(updateTargetTime)
      {
        SweepStep(s, k, st, sel, tg, A0, P0, S0);
      }
    }

    /**
     * What Sweep finds at the start, in terms of the snapshot: the rosters
     * without repeats and nested, the player ships exactly the objects
     * recorded as 'player', and a player ship selected exactly when it is
     * in the selected list. All of it follows from Valid().
     */
    ghost predicate SweepStart(s: seq<SpaceObject>, st: seq<Status>, sel: seq<bool>,
                               A0: seq<SpaceObject>, P0: seq<SpaceObject>, S0: seq<SpaceObject>)
    {
      && |st| == |s| && |sel| == |s|
      && NoDup(s) && NoDup(A0) && NoDup(P0) && NoDup(S0)
      && (forall o :: o in A0 ==> o in s)
      && (forall o :: o in P0 ==> o in A0)
      && (forall o :: o in S0 ==> o in P0)
      && (forall m :: 0 <= m < |s| ==> (st[m].faction == Player <==> s[m] in P0))
      && (forall m :: 0 <= m < |s| ==> (sel[m] <==> s[m] in S0))
      && (forall m :: 0 <= m < |s| && s[m] in P0 ==> (st[m].selected <==> sel[m]))
    }

    /** Valid() gives what Sweep needs at the start. */
    lemma ValidSweepStart(s: seq<SpaceObject>, st: seq<Status>, sel: seq<bool>, tg: seq<seq<real>>,
                          A0: seq<SpaceObject>, P0: seq<SpaceObject>, S0: seq<SpaceObject>)
      requires Valid()
      requires s == spaceObjects && A0 == allShips && P0 == playerShips && S0 == selectedShips
      requires st == Statuses(s) && sel == Members(s, S0) && tg == TargetLists(s)
      ensures SweepStart(s, st, sel, A0, P0, S0) && SweptUpTo(s, 0, st, sel, tg, A0, P0, S0)
    {
      WithoutNothing(s);
      WithoutNothing(A0);
      WithoutNothing(P0);
      WithoutNothing(S0);
    }

    /** After a whole sweep the rosters satisfy Valid() again. */
    lemma SweepKeepsValid(s: seq<SpaceObject>, st: seq<Status>, sel: seq<bool>, tg: seq<seq<real>>,
                          A0: seq<SpaceObject>, P0: seq<SpaceObject>, S0: seq<SpaceObject>)
      requires SweepStart(s, st, sel, A0, P0, S0) && SweptUpTo(s, |s|, st, sel, tg, A0, P0, S0)
      requires Timed()
      ensures Valid()
    {
      var D, W := Picked(s, st, |s|, Disabling), Picked(s, st, |s|, Wreck);
      WithoutNoDup(s, W);
      WithoutNoDup(A0, W);
      WithoutNoDup(P0, D);
      WithoutNoDup(S0, D);
      forall o | o in playerShips
        ensures o in allShips && o.faction == Player && (o.selected <==> o in selectedShips)
      {
        var j :| 0 <= j < |s| && s[j] == o;
        PickedIff(s, st, |s|, Disabling, j);
        PickedIff(s, st, |s|, Wreck, j);
      }
      forall o | o in spaceObjects && o.faction == Player
        ensures o in playerShips
      {
        var j :| 0 <= j < |s| && s[j] == o;
        PickedIff(s, st, |s|, Disabling, j);
      }
    }

    /** SweptVals on the current rosters, statuses and target lists of s. */
    ghost predicate SweptUpTo(s: seq<SpaceObject>, k: int, st: seq<Status>, sel: seq<bool>, tg: seq<seq<real>>,
                              A0: seq<SpaceObject>, P0: seq<SpaceObject>, S0: seq<SpaceObject>)
      reads this`spaceObjects, this`allShips, this`playerShips, this`selectedShips, s
    {
      SweptVals(s, k, st, sel, tg, A0, P0, S0, spaceObjects, allShips, playerShips, selectedShips,
                Statuses(s), TargetLists(s))
    }

    /** One pass of the loop of Sweep, at object s[k]. */
    method SweepStep(s: seq<SpaceObject>, k: int, ghost st: seq<Status>, ghost sel: seq<bool>, ghost tg: seq<seq<real>>,
                     ghost A0: seq<SpaceObject>, ghost P0: seq<SpaceObject>, ghost S0: seq<SpaceObject>)
      requires NoDup(s) && NoDup(A0) && NoDup(P0) && NoDup(S0)
      requires 0 <= k < |s| && SweptUpTo(s, k, st, sel, tg, A0, P0, S0)
      requires st[k].faction == Player <==> s[k] in P0
      requires sel[k] <==> s[k] in S0
      requires s[k] in S0 ==> s[k] in P0
      modifies this`playerShips, this`selectedShips, this`spaceObjects, this`allShips, s`faction, s`targets, s`destination, s`hull, s`selected
      ensures SweptUpTo(s, k + 1, st, sel, tg, A0, P0, S0)
      ensures bullets == old(bullets) && updateTargetTime == old(updateTargetTime)
    {
      PickedIff(s, st, k, Disabling, k);
      assert StatusOf(s[k]) == st[k];
      assert s[k] in selectedShips <==> sel[k];
      assert s[k].faction == Player ==> s[k] in playerShips;
      SweepAt(s, k);
      SweptValsStep(s, k, st, sel, tg, A0, P0, S0,
                    old(spaceObjects), old(allShips), old(playerShips), old(selectedShips),
                    old(Statuses(s)), old(TargetLists(s)),
                    spaceObjects, allShips, playerShips, selectedShips, Statuses(s), TargetLists(s));
    }

    /** SweepOne on s[k]: one entry of the statuses and target lists of s changes, every other stays. */
    method SweepAt(s: seq<SpaceObject>, k: int)
      requires NoDup(s) && 0 <= k < |s|
      requires s[k].faction == Player ==> s[k] in playerShips
      modifies this`playerShips, this`selectedShips, this`spaceObjects, this`allShips, s`faction, s`targets, s`destination, s`hull, s`selected
      ensures var cut := old(s[k].hull) == Some(0) && old(s[k].faction) == Player;
        && playerShips == (if cut then RemoveFirst(old(playerShips), s[k]) else old(playerShips))
        && selectedShips == (if cut then RemoveFirst(old(selectedShips), s[k]) else old(selectedShips))
      ensures spaceObjects == (if Wreck(old(StatusOf(s[k]))) then RemoveFirst(old(spaceObjects), s[k]) else old(spaceObjects))
      ensures allShips == (if Wreck(old(StatusOf(s[k]))) then RemoveFirst(old(allShips), s[k]) else old(allShips))
      ensures Statuses(s) == old(Statuses(s))[k := AfterDisable(old(StatusOf(s[k])), s[k] in old(selectedShips))]
      ensures TargetLists(s) == old(TargetLists(s))[k := if old(s[k].hull) == Some(0) then [] else old(s[k].targets)]
      ensures bullets == old(bullets) && updateTargetTime == old(updateTargetTime)
    {
      ghost var st0, tg0 := Statuses(s), TargetLists(s);
      var o := s[k];
      assert forall m :: 0 <= m < |s| && m != k ==> s[m] != o;
      SweepOne(o);
      ghost var st1, tg1 := Statuses(s), TargetLists(s);
      assert forall m :: 0 <= m < |s| && m != k ==> st1[m] == st0[m] && tg1[m] == tg0[m];
      UpdatedAt(st1, st0, k);
      UpdatedAt(tg1, tg0, k);
    }

    /** `unselect`: every selected ship is deselected and the list emptied. */
    method Unselect()
      requires Valid()
      modifies this`selectedShips, selectedShips`selected
      ensures Valid()
      ensures selectedShips == []
      ensures forall o :: o in old(selectedShips) ==> !o.selected
      ensures forall o :: o in old(selectedShips) ==>
        o.faction == old(o.faction) && o.hull == old(o.hull) && o.cells == old(o.cells) && o.targets == old(o.targets)
      ensures forall o :: o in old(selectedShips) && old(o.Valid()) ==> o.Valid()
    {
      var k := 0;
      while k < |selectedShips|
        invariant selectedShips == old(selectedShips) && 0 <= k <= |selectedShips|
        invariant forall m :: 0 <= m < k ==> !selectedShips[m].selected
        invariant forall o :: o in playerShips && o !in selectedShips ==> !o.selected
        invariant forall o :: o in old(selectedShips) ==>
          o.faction == old(o.faction) && o.hull == old(o.hull) && o.cells == old(o.cells) && o.targets == old(o.targets)
      {
        selectedShips[k].selected := false;
        k := k + 1;
      }
      selectedShips := [];
    }
  }
}
