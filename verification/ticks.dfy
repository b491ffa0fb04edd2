/** One tick of the game: StudentWorld::move.  Every live actor, in list
    order and including those appended during the tick, acts once; the tick
    ends early when Penelope dies or the level is finished, and otherwise
    ends with the dead-actor sweep. */
module Ticks {
  import opened Geometry
  import opened Actors
  import opened Options
  import opened Worlds
  import opened Activation
  import opened Player
  import opened Citizens
  import opened Zombies
  import opened Objects

  /** How a tick ended.  `Stalled` is not a game outcome: it marks a tick
      whose actor list outgrew the `fuel` bound on the number of visits. */
  datatype Status = Continue | PlayerDied | FinishedLevel | Stalled

  /** Actor::doSomething dispatched on the class of the actor in slot i:
      Penelope reads the key pressed this tick, agents, projectiles and
      landmines tick, goodies, pits and exits run a pass while alive, and
      walls do nothing. */
  function DoSomething(src: Source, w: World, i: nat, key: Option<Key>): (r: World)
    requires i < |w.actors|
    ensures Progresses(w, r)
    ensures !w.actors[i].alive ==> r == w
    ensures var k := w.actors[i].kind;
      && (k.Penelope? ==> r == PlayerStep(w, i, key))
      && (k.Citizen? ==> r == CitizenTick(src, w, i))
      && (k.Zombie? ==> r == ZombieTick(src, w, i))
      && (k.Flame? || k.Vomit? ==> r == ProjectileTick(src, w, i))
      && (k.Landmine? ==> r == LandmineTick(src, w, i))
      && (k.Goodie? || k.Pit? || k.Exit? ==> r == PassIfAlive(src, w, i))
      && (k.Wall? ==> r == w)
  {
    match w.actors[i].kind
    case Penelope(_, _, _, _, _) => PlayerStep(w, i, key)
    case Citizen(_, _, _) => CitizenTick(src, w, i)
    case Zombie(_, _, _) => ZombieTick(src, w, i)
    case Goodie(_) => PassIfAlive(src, w, i)
    case Flame(_) => ProjectileTick(src, w, i)
    case Vomit(_) => ProjectileTick(src, w, i)
    case Landmine(_, _) => LandmineTick(src, w, i)
    case Pit => PassIfAlive(src, w, i)
    case Exit => PassIfAlive(src, w, i)
    case Wall => w
  }

  /** A list that evolves keeps Penelope in front. */
  lemma EvolvesKeepsPlayer(w: World, r: World)
    requires WellFormed(w) && Evolves(w.actors, r.actors)
    ensures WellFormed(r)
    ensures !w.actors[0].alive ==> !r.actors[0].alive
  {
    assert Succeeds(w.actors[0], r.actors[0]);
  }

  /** The loop of StudentWorld::move from slot j on, with at most `fuel`
      visits left.  The list may grow while the loop runs, and the loop sees
      what was appended.  After each live actor acts, a dead Penelope ends
      the tick, and so does a finished level. */
  function Visit(src: Source, w: World, j: nat, key: Option<Key>, fuel: nat): (r: (Status, World))
    requires WellFormed(w) && j <= |w.actors|
    ensures Progresses(w, r.1) && WellFormed(r.1)
    ensures r.0 == PlayerDied ==> !r.1.actors[0].alive
    ensures r.0 == FinishedLevel ==> r.1.finished && r.1.actors[0].alive
    ensures r.0 == Continue ==> r.1.finished == w.finished && (w.actors[0].alive ==> r.1.actors[0].alive)
    ensures r.0 == Stalled ==> |r.1.actors| > j + fuel
    ensures r.0 == Continue ==> |r.1.actors| <= j + fuel
    decreases fuel
  {
    if j == |w.actors| then (Continue, w)
    else if fuel == 0 then (Stalled, w)
    else if !w.actors[j].alive then Visit(src, w, j + 1, key, fuel - 1)
    else
      var w1 := DoSomething(src, w, j, key);
      EvolvesKeepsPlayer(w, w1);
      if !w1.actors[0].alive then (PlayerDied, w1)
      else if w1.finished then (FinishedLevel, w1)
      else
        var r := Visit(src, w1, j + 1, key, fuel - 1);
        ProgressesTransitive(w, w1, r.1);
        r
  }

  /** StudentWorld::move.  Penelope's death ends the tick with the list as it
      stands; a finished level ends it with the level number advanced and the
      level-finished sound; otherwise the dead actors are swept out. */
  function Tick(src: Source, w: World, key: Option<Key>, fuel: nat): (r: (Status, World))
    requires WellFormed(w) && w.actors[0].alive
    ensures WellFormed(r.1)
    ensures r.1.level == w.level + (if r.0 == FinishedLevel then 1 else 0)
    ensures r.1.citizens <= w.citizens && r.1.rolls >= w.rolls
    ensures |w.sounds| <= |r.1.sounds| && r.1.sounds[..|w.sounds|] == w.sounds
    ensures r.0 != Continue ==> Evolves(w.actors, r.1.actors)
    ensures r.0 == PlayerDied ==> !r.1.actors[0].alive
    ensures r.0 == FinishedLevel ==> r.1.finished && r.1.actors[0].alive && |r.1.sounds| > |w.sounds| && r.1.sounds[|r.1.sounds| - 1] == LevelFinished
    ensures r.0 == Continue ==> r.1.finished == w.finished && exists t :: Evolves(w.actors, t) && r.1.actors == Sweep(t)
    ensures r.0 == Continue ==> r.1.actors[0].alive
  {
    var (st, v) := Visit(src, w, 0, key, fuel);
    match st
    case Continue =>
      SweepKeepsLiveFront(v.actors);
      (Continue, v.(actors := Sweep(v.actors)))
    case FinishedLevel => (FinishedLevel, v.(level := v.level + 1, sounds := v.sounds + [LevelFinished]))
    case _ => (st, v)
  }

  // ---------------------------------------------------------------------
  // Properties

  /** The key reaches Penelope only: every other actor acts the same
      whatever was pressed. */
  lemma KeyReachesOnlyPenelope(src: Source, w: World, i: nat, k1: Option<Key>, k2: Option<Key>)
    requires i < |w.actors| && !w.actors[i].kind.Penelope?
    ensures DoSomething(src, w, i, k1) == DoSomething(src, w, i, k2)
  {
  }

  /** A sweep of a list with no dead actor keeps it as it is. */
  lemma {:induction false} SweepKeepsAllAlive(s: seq<Actor>)
    requires forall k | 0 <= k < |s| :: s[k].alive
    ensures Sweep(s) == s
    decreases |s|
  {
    if |s| > 0 {
      SweepKeepsAllAlive(s[1..]);
      assert [s[0]] + s[1..] == s;
    }
  }

  /** Penelope with nothing to do and only walls around. */
  predicate Idle(w: World) {
    && WellFormed(w) && !w.finished
    && w.actors[0].alive && !w.actors[0].kind.infected && w.actors[0].kind.infection == 0
    && forall k | 1 <= k < |w.actors| :: w.actors[k].alive && w.actors[k].kind == Wall
  }

  /** The visits of an idle world change nothing. */
  lemma {:induction false} IdleVisitChangesNothing(src: Source, w: World, j: nat, fuel: nat)
    requires Idle(w) && j <= |w.actors| && |w.actors| <= j + fuel
    ensures Visit(src, w, j, None, fuel) == (Continue, w)
    decreases fuel
  {
    if j < |w.actors| {
      IdleVisitChangesNothing(src, w, j + 1, fuel - 1);
      assert DoSomething(src, w, j, None) == w;
    }
  }

  /** With no key pressed, an uninfected Penelope among walls leaves the world
      exactly as it was: the tick goes on and nothing is swept. */
  lemma IdleTickChangesNothing(src: Source, w: World, fuel: nat)
    requires Idle(w) && |w.actors| <= fuel
    ensures Tick(src, w, None, fuel) == (Continue, w)
  {
    IdleVisitChangesNothing(src, w, 0, fuel);
    SweepKeepsAllAlive(w.actors);
  }

  /** A Penelope on her last tick of infection dies first thing in the tick,
      which ends there: nobody else acts and no key is read. */
  lemma InfectedPlayerEndsTick(src: Source, w: World, key: Option<Key>, fuel: nat)
    requires WellFormed(w) && w.actors[0].alive && fuel > 0
    requires w.actors[0].kind.infected && w.actors[0].kind.infection == InfectionLimit
    ensures var k := w.actors[0].kind;
      var dead := w.actors[0].(kind := Penelope(true, InfectionLimit + 1, k.vaccines, k.flameCharges, k.landmines), alive := false);
      Tick(src, w, key, fuel) ==
        (PlayerDied, w.(actors := w.actors[0 := dead], lives := w.lives - 1, sounds := w.sounds + [PlayerDie]))
  {
    var me := w.actors[0];
    var w0 := SetActor(w, 0, me.(kind := Incubate(me.kind)));
    var w1 := DoSomething(src, w, 0, key);
    assert w1 == PlayerStep(w, 0, key) == KillPlayer(w0, 0);
    assert !w1.actors[0].alive;
    assert Visit(src, w, 0, key, fuel) == (PlayerDied, w1);
    var k := me.kind;
    assert Incubate(k) == Penelope(true, InfectionLimit + 1, k.vaccines, k.flameCharges, k.landmines);
    assert w1.actors == w.actors[0 := me.(kind := Incubate(k), alive := false)];
    assert Tick(src, w, key, fuel) == (PlayerDied, w1);
  }

  /** One visit of a live actor: it acts, and unless that killed Penelope or
      finished the level, the loop goes on from the next slot in the world
      the actor left behind. */
  lemma VisitLiveStep(src: Source, w: World, j: nat, key: Option<Key>, fuel: nat, w1: World, r: (Status, World))
    requires WellFormed(w) && j < |w.actors| && fuel > 0 && w.actors[j].alive
    requires DoSomething(src, w, j, key) == w1 && w1.actors[0].alive && !w1.finished
    requires WellFormed(w1) && j + 1 <= |w1.actors| && Visit(src, w1, j + 1, key, fuel - 1) == r
    ensures Visit(src, w, j, key, fuel) == r
  {
  }

  /** Centres whole cells apart along one direction are not close. */
  lemma CellsApartNotClose(p: Pos, d: Dir, m: nat, n: nat)
    requires m < n
    ensures !CentresClose(Shift(p, d, SpriteWidth * m), Shift(p, d, SpriteWidth * n))
    ensures !CentresClose(Shift(p, d, SpriteWidth * n), Shift(p, d, SpriteWidth * m))
  {
    var a, b := Shift(p, d, SpriteWidth * m), Shift(p, d, SpriteWidth * n);
    ShiftApart(p, d, m, n);
    if CentresClose(a, b) {
      CloseImpliesOverlap(a, b);
      assert false;
    }
    if CentresClose(b, a) {
      CloseImpliesOverlap(b, a);
      assert false;
    }
  }

  /** The flame `n` cells ahead of `p` along `d`, `age` ticks old. */
  function FlameAt(p: Pos, d: Dir, n: nat, age: nat): Actor {
    Actor(Flame(age), Shift(p, d, SpriteWidth * n), d, true)
  }

  /** A tick whose loop runs to the end and leaves nobody dead sweeps
      nothing. */
  lemma TickKeepsAllAlive(src: Source, w: World, key: Option<Key>, fuel: nat, v: World)
    requires WellFormed(w) && w.actors[0].alive
    requires Visit(src, w, 0, key, fuel) == (Continue, v)
    requires forall k | 0 <= k < |v.actors| :: v.actors[k].alive
    ensures Tick(src, w, key, fuel) == (Continue, v)
  {
    SweepKeepsAllAlive(v.actors);
  }

  /** A lone uninfected Penelope who fires into open space lays three
      flames and requests the fire sound. */
  lemma FireFromLonePlayer(src: Source, w: World)
    requires WellFormed(w) && |w.actors| == 1
    requires var k := w.actors[0].kind;
      w.actors[0].alive && !k.infected && k.infection == 0 && k.flameCharges > 0
    ensures DoSomething(src, w, 0, Some(FireKey)) == Fired(w)
  {
    var me := w.actors[0];
    LoneFireLaysThree(w);
    assert SetActor(w, 0, me.(kind := Incubate(me.kind))) == w;
  }

  /** With nobody else in the list, all three cells ahead of Penelope are
      free, so her fire lays three flames. */
  lemma LoneFireLaysThree(w: World)
    requires WellFormed(w) && |w.actors| == 1 && w.actors[0].kind.flameCharges > 0
    ensures CreateFlame(w, 0) == Fired(w)
  {
    var me := w.actors[0];
    var p, d := me.pos, me.dir;
    assert p == Shift(p, d, SpriteWidth * 0);
    forall n | 1 <= n <= 3
      ensures !SpriteOverlap(w.actors[0].pos, Shift(p, d, SpriteWidth * n))
    {
      ShiftApart(p, d, 0, n);
    }
    FireIntoOpenSpace(w, 0);
    CreateFlameLays(w, 0);
    assert FlameRow(p, d, 1, 3) == [FlameAt(p, d, 1, 0), FlameAt(p, d, 2, 0), FlameAt(p, d, 3, 0)];
  }

  /** A young flame with nobody close to it, visited by the loop, only ages. */
  lemma LoneFlameActs(src: Source, w: World, j: nat, key: Option<Key>)
    requires j < |w.actors| && w.actors[j].kind.Flame? && w.actors[j].alive
    requires w.actors[j].kind.age != ProjectileLifetime
    requires forall k | 0 <= k < |w.actors| && k != j :: !CentresClose(w.actors[k].pos, w.actors[j].pos)
    ensures DoSomething(src, w, j, key) == SetActor(w, j, w.actors[j].(kind := Flame(w.actors[j].kind.age + 1)))
  {
    LoneProjectileAges(src, w, j);
  }

  /** The world right after a lone Penelope fires into open space. */
  function Fired(w: World): World
    requires WellFormed(w) && w.actors[0].kind.flameCharges > 0
  {
    var me := w.actors[0];
    w.(actors := [me.(kind := SpendCharge(me.kind)), FlameAt(me.pos, me.dir, 1, 0), FlameAt(me.pos, me.dir, 2, 0), FlameAt(me.pos, me.dir, 3, 0)],
       sounds := w.sounds + [PlayerFire])
  }

  /** The world at the end of that tick's loop: the flames are one tick old. */
  function FiredAndAged(w: World): World
    requires WellFormed(w) && w.actors[0].kind.flameCharges > 0
  {
    var me := w.actors[0];
    w.(actors := [me.(kind := SpendCharge(me.kind)), FlameAt(me.pos, me.dir, 1, 1), FlameAt(me.pos, me.dir, 2, 1), FlameAt(me.pos, me.dir, 3, 1)],
       sounds := w.sounds + [PlayerFire])
  }

  /** The rest of that tick's loop: each fresh flame, visited in turn,
      runs its pass over nobody and ages. */
  lemma FlamesAfterFiring(src: Source, w: World, fuel: nat)
    requires WellFormed(w) && |w.actors| == 1 && !w.finished && fuel >= 3
    requires var k := w.actors[0].kind;
      w.actors[0].alive && !k.infected && k.infection == 0 && k.flameCharges > 0
    ensures Visit(src, Fired(w), 1, Some(FireKey), fuel) == (Continue, FiredAndAged(w))
  {
    var p, d := w.actors[0].pos, w.actors[0].dir;
    var key := Some(FireKey);
    assert p == Shift(p, d, SpriteWidth * 0);
    CellsApartNotClose(p, d, 0, 1);
    CellsApartNotClose(p, d, 0, 2);
    CellsApartNotClose(p, d, 0, 3);
    CellsApartNotClose(p, d, 1, 2);
    CellsApartNotClose(p, d, 1, 3);
    CellsApartNotClose(p, d, 2, 3);
    var w1 := Fired(w);
    var w2 := w1.(actors := w1.actors[1 := FlameAt(p, d, 1, 1)]);
    var w3 := w2.(actors := w2.actors[2 := FlameAt(p, d, 2, 1)]);
    var w4 := w3.(actors := w3.actors[3 := FlameAt(p, d, 3, 1)]);
    LoneFlameActs(src, w1, 1, key);
    LoneFlameActs(src, w2, 2, key);
    LoneFlameActs(src, w3, 3, key);
    assert w4 == FiredAndAged(w);
    var done := (Continue, w4);
    assert Visit(src, w4, 4, key, fuel - 3) == done;
    VisitLiveStep(src, w3, 3, key, fuel - 2, w4, done);
    VisitLiveStep(src, w2, 2, key, fuel - 1, w3, done);
    VisitLiveStep(src, w1, 1, key, fuel, w2, done);
  }

  /** The world right after a lone Penelope plants a landmine. */
  function Planted(w: World): World
    requires WellFormed(w) && w.actors[0].kind.landmines > 0
  {
    var me := w.actors[0];
    w.(actors := [me.(kind := me.kind.(landmines := me.kind.landmines - 1)), NewLandmine(me.pos)])
  }

  /** The world at the end of that tick: the new landmine has counted down
      one tick of its safety period. */
  function PlantedAndCounted(w: World): World
    requires WellFormed(w) && w.actors[0].kind.landmines > 0
  {
    var me := w.actors[0];
    w.(actors := [me.(kind := me.kind.(landmines := me.kind.landmines - 1)), Actor(Landmine(29, false), me.pos, Right, true)])
  }

  /** A lone uninfected Penelope who presses the landmine key plants one. */
  lemma MineFromLonePlayer(src: Source, w: World)
    requires WellFormed(w) && |w.actors| == 1
    requires var k := w.actors[0].kind;
      w.actors[0].alive && !k.infected && k.infection == 0 && k.landmines > 0
    ensures DoSomething(src, w, 0, Some(MineKey)) == Planted(w)
  {
    var me := w.actors[0];
    assert SetActor(w, 0, me.(kind := Incubate(me.kind))) == w;
  }

  /** The rest of that tick's loop: the new landmine is visited and counts
      down. */
  lemma MineAfterPlanting(src: Source, w: World, fuel: nat)
    requires WellFormed(w) && |w.actors| == 1 && !w.finished && fuel >= 1
    requires w.actors[0].alive && w.actors[0].kind.landmines > 0
    ensures Visit(src, Planted(w), 1, Some(MineKey), fuel) == (Continue, PlantedAndCounted(w))
  {
    var w1, w2 := Planted(w), PlantedAndCounted(w);
    assert DoSomething(src, w1, 1, Some(MineKey)) == w2 by {
      assert w2 == SetActor(w1, 1, w1.actors[1].(kind := ArmStep(w1.actors[1].kind)));
    }
    assert Visit(src, w2, 2, Some(MineKey), fuel - 1) == (Continue, w2);
    VisitLiveStep(src, w1, 1, Some(MineKey), fuel, w2, (Continue, w2));
  }

  /** Actors appended during a tick act in that same tick: a lone Penelope
      who plants a landmine ends the tick next to a landmine that has
      already counted down one tick of its 30-tick safety period. */
  lemma PlantedMineActsInSameTick(src: Source, w: World, fuel: nat)
    requires WellFormed(w) && |w.actors| == 1 && !w.finished && fuel >= 2
    requires var k := w.actors[0].kind;
      w.actors[0].alive && !k.infected && k.infection == 0 && k.landmines > 0
    ensures var me := w.actors[0];
      Tick(src, w, Some(MineKey), fuel) ==
        (Continue, w.(actors := [me.(kind := me.kind.(landmines := me.kind.landmines - 1)), Actor(Landmine(29, false), me.pos, Right, true)]))
  {
    MineFromLonePlayer(src, w);
    MineAfterPlanting(src, w, fuel - 1);
    VisitLiveStep(src, w, 0, Some(MineKey), fuel, Planted(w), (Continue, PlantedAndCounted(w)));
    TickKeepsAllAlive(src, w, Some(MineKey), fuel, PlantedAndCounted(w));
  }
}
