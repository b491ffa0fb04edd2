/** A zombie's per-tick behaviour: on every other tick of its life it may
    vomit on a human one cell ahead; otherwise it follows its movement plan,
    one pixel per tick, choosing a new plan when the old one runs out.  Dumb
    zombies pick a random direction; smart ones head for the nearest human
    within 80 pixels. */
module Zombies {
  import opened Geometry
  import opened Actors
  import opened Options
  import opened Worlds
  import opened Queries
  import opened Agents

  /** Pixels a zombie moves per step. */
  const ZombieStep: int := 1

  /** Least and greatest length of a new movement plan. */
  const PlanMin: int := 3
  const PlanMax: int := 10

  /** Some human (live or not yet swept) is within 10 pixels of `p`. */
  predicate HumanNear(s: seq<Actor>, p: Pos) {
    exists k :: 0 <= k < |s| && Has(s[k], TriggersZombieVomit) && CentresClose(s[k].pos, p)
  }

  /** Zombie::vomit for the zombie in slot i: if the nearest human to the
      point one cell ahead is within 10 pixels of it, a draw in [1,3] of 1
      puts vomit there, facing the zombie's way.  The answer says whether it
      vomited. */
  function TryVomit(src: Source, w: World, i: nat): (r: (bool, World))
    requires i < |w.actors|
    ensures var me := w.actors[i];
      var p := Shift(me.pos, me.dir, SpriteWidth);
      && (!HumanNear(w.actors, p) ==> r == (false, w))
      && (HumanNear(w.actors, p) ==>
            && (r.0 <==> src(w.rolls) % 3 == 0)
            && r.1.rolls == w.rolls + 1
            && r.1.actors == w.actors + (if r.0 then [NewVomit(p, me.dir)] else [])
            && r.1.sounds == w.sounds + (if r.0 then [ZombieVomit] else [])
            && r.1.(actors := w.actors, sounds := w.sounds, rolls := w.rolls) == w)
  {
    var me := w.actors[i];
    var p := Shift(me.pos, me.dir, SpriteWidth);
    var h := Nearest(w.actors, p, TriggersZombieVomit, me.pos);
    NearestSpec(w.actors, p, TriggersZombieVomit, me.pos);
    assert h.found && h.dist2 < Sq(OverlapRadius) <==> HumanNear(w.actors, p) by {
      if HumanNear(w.actors, p) {
        var k :| 0 <= k < |w.actors| && Has(w.actors[k], TriggersZombieVomit) && CentresClose(w.actors[k].pos, p);
        Dist2Symmetric(w.actors[k].pos, p);
      }
      if h.found && h.dist2 < Sq(OverlapRadius) {
        var j :| EarliestNearest(w.actors, p, TriggersZombieVomit, j) && h.pos == w.actors[j].pos
                 && h.dist2 == Dist2(w.actors[j].pos, p);
        Dist2Symmetric(w.actors[j].pos, p);
      }
    }
    if h.found && h.dist2 < Sq(OverlapRadius) then
      var (chance, w1) := Roll(src, w, 1, 3);
      if chance == 1 then (true, Spawn(Play(w1, ZombieVomit), NewVomit(p, me.dir)))
      else (false, w1)
    else (false, w)
  }

  /** The zombie in slot i with its plan and facing replaced. */
  function Replan(w: World, i: nat, d: Dir, plan: nat): (r: World)
    requires i < |w.actors| && w.actors[i].kind.Zombie?
    ensures r.actors == w.actors[i := w.actors[i].(dir := d, kind := w.actors[i].kind.(plan := plan))]
    ensures r.(actors := w.actors) == w
  {
    var z := w.actors[i];
    SetActor(w, i, z.(dir := d, kind := Zombie(z.kind.breed, z.kind.timeAlive, plan)))
  }

  /** A dumb zombie's new plan: a length drawn from [3,10], then a direction
      drawn from [0,3] among up, down, left, right. */
  function DumbPlan(src: Source, w: World, i: nat): (r: World)
    requires i < |w.actors| && w.actors[i].kind.Zombie?
    ensures r.rolls == w.rolls + 2
    ensures r == Replan(w, i, AllDirs[src(w.rolls + 1) % 4], PlanMin + src(w.rolls) % 8).(rolls := w.rolls + 2)
    ensures PlanMin <= r.actors[i].kind.plan <= PlanMax
  {
    var (plan, w1) := Roll(src, w, PlanMin, PlanMax);
    var (k, w2) := Roll(src, w1, 0, 3);
    Replan(w2, i, AllDirs[k], plan)
  }

  /** A smart zombie's new plan: a length drawn from [3,10]; then, if the
      nearest human is within 80 pixels, the primary direction toward it; if
      humans exist but none that close, a random direction; with no human at
      all, the direction it already faces. */
  function SmartPlan(src: Source, w: World, i: nat): (r: World)
    requires i < |w.actors| && w.actors[i].kind.Zombie?
    ensures |r.actors| == |w.actors| && r.(actors := w.actors, rolls := w.rolls) == w && r.rolls > w.rolls
    ensures forall k | 0 <= k < |w.actors| && k != i :: r.actors[k] == w.actors[k]
    ensures r.actors[i].kind.Zombie?
    ensures r.actors[i] == w.actors[i].(dir := r.actors[i].dir, kind := w.actors[i].kind.(plan := r.actors[i].kind.plan))
    ensures PlanMin <= r.actors[i].kind.plan <= PlanMax
    ensures (forall k | 0 <= k < |w.actors| :: !Has(w.actors[k], TriggersZombieVomit)) ==>
              r.actors[i].dir == w.actors[i].dir && r.rolls == w.rolls + 1
    ensures var h := Nearest(w.actors, w.actors[i].pos, TriggersZombieVomit, w.actors[i].pos);
      h.found && h.dist2 < Sq(SightRadius) && h.pos != w.actors[i].pos ==>
        Toward(w.actors[i].pos, h.pos, r.actors[i].dir)
    ensures r.actors[i].kind.plan == PlanMin + src(w.rolls) % 8
    ensures var h := Nearest(w.actors, w.actors[i].pos, TriggersZombieVomit, w.actors[i].pos);
      var hd := FindDirectionTo(src, w.(rolls := w.rolls + 1), w.actors[i].pos, h.pos);
      h.found && h.dist2 < Sq(SightRadius) ==> r.actors[i].dir == hd.0.primary && r.rolls == hd.1.rolls
    ensures var h := Nearest(w.actors, w.actors[i].pos, TriggersZombieVomit, w.actors[i].pos);
      h.found && h.dist2 >= Sq(SightRadius) ==> r.actors[i].dir == AllDirs[src(w.rolls + 1) % 4] && r.rolls == w.rolls + 2
  {
    var me := w.actors[i];
    var (plan, w1) := Roll(src, w, PlanMin, PlanMax);
    var h := Nearest(w.actors, me.pos, TriggersZombieVomit, me.pos);
    NearestSpec(w.actors, me.pos, TriggersZombieVomit, me.pos);
    var (d, w2) :=
      if !h.found then (me.dir, w1)
      else if h.dist2 < Sq(SightRadius) then
        var (hd, w3) := FindDirectionTo(src, w1, me.pos, h.pos);
        (hd.primary, w3)
      else
        var (k, w3) := Roll(src, w1, 0, 3);
        (AllDirs[k], w3);
    Replan(w2, i, d, plan)
  }

  /** The replanning step of a zombie's tick: a zombie with steps left in
      its plan keeps it; one whose plan is used up picks a new one by its
      breed.  Only the zombie's plan and facing change, and draws are only
      consumed. */
  function Replanned(src: Source, w: World, i: nat): (r: World)
    requires i < |w.actors| && w.actors[i].kind.Zombie?
    ensures |r.actors| == |w.actors| && r.(actors := w.actors, rolls := w.rolls) == w && r.rolls >= w.rolls
    ensures forall k | 0 <= k < |w.actors| && k != i :: r.actors[k] == w.actors[k]
    ensures var z := w.actors[i];
      && r.actors[i].kind.Zombie?
      && r.actors[i] == z.(dir := r.actors[i].dir, kind := Zombie(z.kind.breed, z.kind.timeAlive, r.actors[i].kind.plan))
    ensures w.actors[i].kind.plan > 0 ==> r == w
    ensures w.actors[i].kind.plan == 0 ==> PlanMin <= r.actors[i].kind.plan <= PlanMax
  {
    if w.actors[i].kind.plan > 0 then w
    else if w.actors[i].kind.breed == Dumb then DumbPlan(src, w, i)
    else SmartPlan(src, w, i)
  }

  /** The last step of a zombie's tick: one pixel along its facing; the plan
      shrinks by one if the step was taken and drops to 0 if it was blocked. */
  function Advance(w: World, i: nat): (r: World)
    requires i < |w.actors| && w.actors[i].kind.Zombie?
    ensures var z := w.actors[i];
      var target := Shift(z.pos, z.dir, ZombieStep);
      && (!MovementBlocked(w.actors, i, target) ==>
            r.actors == w.actors[i := z.(pos := target, kind := z.kind.(plan := if z.kind.plan > 0 then z.kind.plan - 1 else 0))])
      && (MovementBlocked(w.actors, i, target) ==> r.actors == w.actors[i := z.(kind := z.kind.(plan := 0))])
    ensures r.(actors := w.actors) == w
  {
    var z := w.actors[i];
    var (ok, w1) := TryMove(w, i, z.dir, ZombieStep);
    var plan := if ok && z.kind.plan > 0 then z.kind.plan - 1 else 0;
    Replan(w1, i, z.dir, plan)
  }

  /** A zombie's moving tick: vomit if it can; otherwise replan when the plan
      is used up, then advance.  Only the zombie's position, facing and plan
      may change, it moves at most one pixel, and what is appended is the
      vomit. */
  function ZombieMoves(src: Source, w: World, i: nat): (r: World)
    requires i < |w.actors| && w.actors[i].kind.Zombie?
    ensures r.score == w.score && r.citizens == w.citizens && r.lives == w.lives && r.finished == w.finished
    ensures r.level == w.level && r.rolls >= w.rolls && |w.sounds| <= |r.sounds| && r.sounds[..|w.sounds|] == w.sounds
    ensures |w.actors| <= |r.actors| <= |w.actors| + 1
    ensures |r.actors| > |w.actors| ==>
              && r.actors[|w.actors|] == NewVomit(Shift(w.actors[i].pos, w.actors[i].dir, SpriteWidth), w.actors[i].dir)
              && r.actors[i] == w.actors[i]
    ensures forall k | 0 <= k < |w.actors| && k != i :: r.actors[k] == w.actors[k]
    ensures var z := w.actors[i];
      && r.actors[i].kind.Zombie?
      && r.actors[i] == z.(pos := r.actors[i].pos, dir := r.actors[i].dir, kind := Zombie(z.kind.breed, z.kind.timeAlive, r.actors[i].kind.plan))
    ensures r.actors[i].pos == w.actors[i].pos || r.actors[i].pos == Shift(w.actors[i].pos, r.actors[i].dir, ZombieStep)
    ensures w.actors[i].kind.plan <= PlanMax ==> r.actors[i].kind.plan <= PlanMax
  {
    var (vomited, w1) := TryVomit(src, w, i);
    if vomited then w1
    else
      Advance(Replanned(src, w1, i), i)
  }

  /** DumbZombie::doSomething and SmartZombie::doSomething for the zombie in
      slot i.  A dead zombie does nothing.  Otherwise it ages; on even ticks
      of its life that is all; on odd ticks it moves as `ZombieMoves` says. */
  function ZombieTick(src: Source, w: World, i: nat): (r: World)
    requires i < |w.actors| && w.actors[i].kind.Zombie?
    ensures Progresses(w, r)
    ensures !w.actors[i].alive ==> r == w
    ensures r.score == w.score && r.citizens == w.citizens && r.lives == w.lives
    ensures r.actors[i].kind.Zombie? && r.actors[i].kind.breed == w.actors[i].kind.breed
    ensures |w.actors| <= |r.actors| <= |w.actors| + 1
    ensures forall k | 0 <= k < |w.actors| && k != i :: r.actors[k] == w.actors[k]
    ensures w.actors[i].kind.plan <= PlanMax ==> r.actors[i].kind.plan <= PlanMax
  {
    var z := w.actors[i];
    if !z.alive then w
    else
      var t := z.kind.timeAlive + 1;
      var w1 := SetActor(w, i, z.(kind := Zombie(z.kind.breed, t, z.kind.plan)));
      if t % 2 == 0 then w1
      else
        var r := ZombieMoves(src, w1, i);
        assert Succeeds(w.actors[i], r.actors[i]);
        r
  }

  // ---------------------------------------------------------------------
  // Properties

  /** With no human anywhere in the list, a smart zombie choosing a new plan
      keeps the direction it faces (the game skips the direction choice), so
      it walks on in a straight line. */
  lemma SmartZombieWithoutHumansKeepsHeading(src: Source, w: World, i: nat)
    requires i < |w.actors| && w.actors[i].alive
    requires w.actors[i].kind.Zombie? && w.actors[i].kind.breed == Smart && w.actors[i].kind.plan == 0
    requires w.actors[i].kind.timeAlive % 2 == 0
    requires forall k | 0 <= k < |w.actors| :: !Has(w.actors[k], TriggersZombieVomit)
    ensures ZombieTick(src, w, i).actors[i].dir == w.actors[i].dir
    ensures ZombieTick(src, w, i).rolls == w.rolls + 1
  {
    var z := w.actors[i];
    var w1 := SetActor(w, i, z.(kind := Zombie(z.kind.breed, z.kind.timeAlive + 1, 0)));
    assert !HumanNear(w1.actors, Shift(z.pos, z.dir, SpriteWidth));
  }

  /** A vomiting zombie stays where it is and keeps its plan. */
  lemma VomitingZombieStands(src: Source, w: World, i: nat)
    requires i < |w.actors| && w.actors[i].alive && w.actors[i].kind.Zombie?
    requires |ZombieTick(src, w, i).actors| > |w.actors|
    ensures var r := ZombieTick(src, w, i);
      && r.actors[i].pos == w.actors[i].pos && r.actors[i].dir == w.actors[i].dir
      && r.actors[i].kind.plan == w.actors[i].kind.plan
      && r.sounds == w.sounds + [ZombieVomit]
      && r.actors[|w.actors|].kind == Actors.Vomit(0)
  {
    var z := w.actors[i];
    var t := z.kind.timeAlive + 1;
    var w1 := SetActor(w, i, z.(kind := Zombie(z.kind.breed, t, z.kind.plan)));
    assert t % 2 == 1;
    var (vomited, w2) := TryVomit(src, w1, i);
  }

  /** The order inside a moving tick: with no human one cell ahead the zombie
      replans if need be and advances without a draw for vomit; with one
      there, a draw of 1 in [1,3] puts vomit ahead and the zombie stays put,
      and any other draw leaves it to replan and advance after that draw. */
  lemma ZombieMovesCases(src: Source, w: World, i: nat)
    requires i < |w.actors| && w.actors[i].kind.Zombie?
    ensures var z := w.actors[i];
      !HumanNear(w.actors, Shift(z.pos, z.dir, SpriteWidth)) ==>
        ZombieMoves(src, w, i) == Advance(Replanned(src, w, i), i)
    ensures var z, w1 := w.actors[i], w.(rolls := w.rolls + 1);
      HumanNear(w.actors, Shift(z.pos, z.dir, SpriteWidth)) && src(w.rolls) % 3 != 0 ==>
        ZombieMoves(src, w, i) == Advance(Replanned(src, w1, i), i)
    ensures var z, p := w.actors[i], Shift(w.actors[i].pos, w.actors[i].dir, SpriteWidth);
      HumanNear(w.actors, p) && src(w.rolls) % 3 == 0 ==>
        ZombieMoves(src, w, i) == w.(actors := w.actors + [NewVomit(p, z.dir)], sounds := w.sounds + [ZombieVomit], rolls := w.rolls + 1)
  {
    var (vomited, w1) := TryVomit(src, w, i);
    var z := w.actors[i];
    if HumanNear(w.actors, Shift(z.pos, z.dir, SpriteWidth)) {
      assert w1 == w.(actors := w1.actors, sounds := w1.sounds, rolls := w.rolls + 1);
      if !vomited {
        assert w1 == w.(rolls := w.rolls + 1);
      }
    }
  }

  /** A live zombie is one tick older afterwards; on an even tick of its life
      that is all that happens, with no draw and no sound. */
  lemma ZombieTickAges(src: Source, w: World, i: nat)
    requires i < |w.actors| && w.actors[i].kind.Zombie? && w.actors[i].alive
    ensures ZombieTick(src, w, i).actors[i].kind.timeAlive == w.actors[i].kind.timeAlive + 1
    ensures var z, r := w.actors[i], ZombieTick(src, w, i);
      (z.kind.timeAlive + 1) % 2 == 0 ==>
        && r.actors[i] == z.(kind := Zombie(z.kind.breed, z.kind.timeAlive + 1, z.kind.plan))
        && r.rolls == w.rolls && r.sounds == w.sounds && |r.actors| == |w.actors|
  {
  }

  /** On an odd tick of its life a live zombie ages and then moves as
      ZombieMoves says; the move sees the zombie already aged. */
  lemma ZombieTickMovesOnOddTicks(src: Source, w: World, i: nat)
    requires i < |w.actors| && w.actors[i].kind.Zombie? && w.actors[i].alive
    requires (w.actors[i].kind.timeAlive + 1) % 2 == 1
    ensures var z := w.actors[i];
      ZombieTick(src, w, i) == ZombieMoves(src, SetActor(w, i, z.(kind := Zombie(z.kind.breed, z.kind.timeAlive + 1, z.kind.plan))), i)
  {
    var t := w.actors[i].kind.timeAlive + 1;
    assert t % 2 != 0;
  }
}
