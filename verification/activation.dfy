/** The activation protocol.  An instigator (goodie, flame, vomit, landmine,
    pit, exit) runs a pass over the actor list and, for every other actor
    whose centre is within 10 pixels of its own, calls its
    activateIfAppropriate on that target; the target's hooks
    (dieByFallOrBurn, useExit, beVomitedOn, pickUpGoodie) decide the effect.
    The open virtual hooks become one `match` on the instigator's kind and
    one on the target's kind. */
module Activation {
  import opened Geometry
  import opened Actors
  import opened Options
  import opened Worlds
  import opened Queries

  /** Classes whose being targeted can append actors: agents set off armed
      landmines, landmines explode when burnt, dumb zombies fling vaccines.
      Everything an activation appends (pits, flames, vaccine goodies) is of
      another class. */
  predicate Productive(c: Class) {
    IsAgent(c) || c == LandmineClass
  }

  /** `t` is `s` after a hook run by instigator `a` on target `b`: only slots
      `a` and `b` changed, nobody moved or turned, at most `extra` actors were
      appended, and none of them is productive. */
  predicate Confined(s: seq<Actor>, t: seq<Actor>, a: nat, b: nat, extra: nat) {
    && Still(s, t)
    && |t| <= |s| + extra
    && (forall k | 0 <= k < |s| && k != a && k != b :: t[k] == s[k])
    && (forall k | |s| <= k < |t| :: !Productive(ClassOf(t[k].kind)))
  }

  /** How many spawns targeting slot `b` may cause. */
  function SpawnBound(s: seq<Actor>, b: nat): nat
    requires b < |s|
  {
    if Productive(ClassOf(s[b].kind)) then 9 else 0
  }

  // ---------------------------------------------------------------------
  // Deaths

  /** Penelope::kill: she dies and a life is lost. */
  function KillPlayer(w: World, i: nat): (r: World)
    requires i < |w.actors|
    ensures Progresses(w, r) && Confined(w.actors, r.actors, i, i, 0)
    ensures !r.actors[i].alive && r.lives == w.lives - 1
    ensures r.score == w.score && r.citizens == w.citizens && r.finished == w.finished
  {
    Play(SetDead(w, i).(lives := w.lives - 1), PlayerDie)
  }

  /** Citizen::kill: the citizen dies, counts as gone, and costs 1000 points. */
  function KillCitizen(w: World, i: nat): (r: World)
    requires i < |w.actors|
    ensures Progresses(w, r) && Confined(w.actors, r.actors, i, i, 0)
    ensures !r.actors[i].alive
    ensures r.citizens == w.citizens - 1 && r.score == w.score - 1000 && r.lives == w.lives
  {
    AddScore(RecordCitizenGone(SetDead(w, i)), -1000)
  }

  /** Zombie::kill. */
  function KillZombie(w: World, i: nat): (r: World)
    requires i < |w.actors|
    ensures Progresses(w, r) && Confined(w.actors, r.actors, i, i, 0)
    ensures !r.actors[i].alive
    ensures r.score == w.score && r.citizens == w.citizens && r.lives == w.lives
  {
    Play(SetDead(w, i), ZombieDie)
  }

  /** DumbZombie::flingVaccine: a vaccine goodie one cell away along `d`,
      unless some actor's sprite already covers that point. */
  function FlingVaccine(w: World, i: nat, d: Dir): (r: World)
    requires i < |w.actors|
    ensures var p := Shift(w.actors[i].pos, d, SpriteWidth);
      r.actors == w.actors + (if VaccineCreationBlocked(w.actors, p) then [] else [NewGoodie(VaccineGoodie, p)])
    ensures r.(actors := w.actors) == w
  {
    var p := Shift(w.actors[i].pos, d, SpriteWidth);
    if VaccineCreationBlocked(w.actors, p) then w else Spawn(w, NewGoodie(VaccineGoodie, p))
  }

  /** DumbZombie::dieByFallOrBurnIfAppropriate: dies, +1000 points, and on a
      draw of 10 in [1,10] flings a vaccine in a direction drawn from [0,3]. */
  function DumbZombieBurns(src: Source, w: World, i: nat): (r: World)
    requires i < |w.actors|
    ensures Progresses(w, r) && Confined(w.actors, r.actors, i, i, 1)
    ensures !r.actors[i].alive
    ensures r.score == w.score + 1000 && r.citizens == w.citizens && r.lives == w.lives
    ensures r.rolls == w.rolls + (if src(w.rolls) % 10 == 9 then 2 else 1)
    ensures |r.actors| > |w.actors| ==>
              src(w.rolls) % 10 == 9 && r.actors == w.actors[i := w.actors[i].(alive := false)] + [r.actors[|w.actors|]]
              && r.actors[|w.actors|].kind == Goodie(VaccineGoodie)
              && exists d: Dir :: r.actors[|w.actors|].pos == Shift(w.actors[i].pos, d, SpriteWidth)
  {
    var w1 := AddScore(KillZombie(w, i), 1000);
    var (chance, w2) := Roll(src, w1, 1, 10);
    if chance == 10 then
      var (k, w3) := Roll(src, w2, 0, 3);
      FlingVaccine(w3, i, AllDirs[k])
    else w2
  }

  /** A dumb zombie that burns flings a vaccine exactly when its first draw
      is 10 and nothing covers the cell in the direction of its second draw;
      the vaccine goodie then appears on that cell. */
  lemma DumbZombieFlingsVaccine(src: Source, w: World, i: nat)
    requires i < |w.actors|
    ensures var d := AllDirs[src(w.rolls + 1) % 4];
      var p, r := Shift(w.actors[i].pos, d, SpriteWidth), DumbZombieBurns(src, w, i);
      && (|r.actors| > |w.actors| <==> src(w.rolls) % 10 == 9 && !VaccineCreationBlocked(w.actors, p))
      && (|r.actors| > |w.actors| ==> r.actors[|w.actors|] == NewGoodie(VaccineGoodie, p))
  {
    var w1 := AddScore(KillZombie(w, i), 1000);
    var d := AllDirs[src(w.rolls + 1) % 4];
    var p := Shift(w.actors[i].pos, d, SpriteWidth);
    assert SameLayout(w.actors, w1.actors);
    PointQueriesSeeLayoutOnly(w.actors, w1.actors, p);
    if src(w.rolls) % 10 == 9 {
      var w3 := w1.(rolls := w.rolls + 2);
      assert DumbZombieBurns(src, w, i) == FlingVaccine(w3, i, d);
    } else {
      assert DumbZombieBurns(src, w, i) == w1.(rolls := w.rolls + 1);
    }
  }

  /** The nine actors of an explosion centred on `c`, in the order the game
      creates them (column by column from the left, each column bottom to
      top): a pit on `c` itself and flames facing up on the eight
      neighbouring cells. */
  function Blast(c: Pos): (r: seq<Actor>)
    ensures |r| == 9
    ensures forall k | 0 <= k < 9 :: r[k].pos == Pos(c.x + (k / 3 - 1) * SpriteWidth, c.y + (k % 3 - 1) * SpriteHeight)
    ensures r[4] == NewPit(c)
    ensures forall k | 0 <= k < 9 && k != 4 :: r[k] == NewFlame(r[k].pos, Up)
  {
    var W := SpriteWidth;
    var H := SpriteHeight;
    [ NewFlame(Pos(c.x - W, c.y - H), Up), NewFlame(Pos(c.x - W, c.y), Up), NewFlame(Pos(c.x - W, c.y + H), Up),
      NewFlame(Pos(c.x, c.y - H), Up), NewPit(c), NewFlame(Pos(c.x, c.y + H), Up),
      NewFlame(Pos(c.x + W, c.y - H), Up), NewFlame(Pos(c.x + W, c.y), Up), NewFlame(Pos(c.x + W, c.y + H), Up) ]
  }

  /** Landmine::explode: the landmine dies and the blast around its cell is
      appended; it does not look at whether the landmine was still alive. */
  function Explode(w: World, i: nat): (r: World)
    requires i < |w.actors|
    ensures Progresses(w, r) && Confined(w.actors, r.actors, i, i, 9)
    ensures !r.actors[i].alive
    ensures r.actors == w.actors[i := w.actors[i].(alive := false)] + Blast(w.actors[i].pos)
    ensures r.score == w.score && r.citizens == w.citizens && r.lives == w.lives && r.finished == w.finished
  {
    var w1 := SetDead(Play(w, LandmineExplode), i);
    w1.(actors := w1.actors + Blast(w.actors[i].pos))
  }

  // ---------------------------------------------------------------------
  // Target hooks

  /** The classes that dieByFallOrBurnIfAppropriate kills. */
  predicate Burnable(c: Class) {
    IsAgent(c) || c == VaccineGoodieClass || c == GasCanGoodieClass || c == LandmineGoodieClass || c == LandmineClass
  }

  /** Points a burn or fall earns or costs, by class of the victim. */
  function BurnScore(c: Class): int {
    match c
    case CitizenClass => -1000
    case DumbZombieClass => 1000
    case SmartZombieClass => 2000
    case _ => 0
  }

  /** dieByFallOrBurnIfAppropriate on slot t, for every class: Penelope dies
      and loses a life; a citizen dies, is gone and costs 1000; zombies die for
      1000 (dumb, which may also fling a vaccine) or 2000 (smart); goodies die;
      a live landmine explodes; walls, exits, pits and projectiles are immune. */
  function DieByFallOrBurn(src: Source, w: World, t: nat): (r: World)
    requires t < |w.actors|
    ensures Progresses(w, r) && Confined(w.actors, r.actors, t, t, SpawnBound(w.actors, t))
    ensures Burnable(ClassOf(w.actors[t].kind)) ==> !r.actors[t].alive
    ensures !Burnable(ClassOf(w.actors[t].kind)) ==> r == w
  {
    var bound := SpawnBound(w.actors, t);
    match w.actors[t].kind
    case Penelope(_, _, _, _, _) =>
      var r := KillPlayer(w, t);
      ConfinedWidens(w.actors, r.actors, t, 0, bound);
      r
    case Citizen(_, _, _) =>
      var r := Play(KillCitizen(w, t), CitizenDie);
      ConfinedWidens(w.actors, r.actors, t, 0, bound);
      r
    case Zombie(breed, _, _) =>
      var r := if breed == Dumb then DumbZombieBurns(src, w, t) else AddScore(KillZombie(w, t), 2000);
      ConfinedWidens(w.actors, r.actors, t, 1, bound);
      r
    case Goodie(_) =>
      var r := SetDead(w, t);
      ConfinedWidens(w.actors, r.actors, t, 0, bound);
      r
    case Landmine(_, _) => if w.actors[t].alive then Explode(w, t) else w
    case _ => w
  }

  /** A hook confined to at most `e` spawns is confined to any larger bound. */
  lemma ConfinedWidens(s: seq<Actor>, u: seq<Actor>, t: nat, e: nat, f: nat)
    requires Confined(s, u, t, t, e) && e <= f
    ensures Confined(s, u, t, t, f)
  {
  }

  /** What a burn or fall does to the level's accounts: the victim's points
      (-1000 for a citizen, 1000 or 2000 for a zombie), one citizen fewer for
      a citizen, one life fewer for Penelope; the finished flag is untouched,
      and a landmine that is already dead does nothing at all. */
  lemma BurnAccounting(src: Source, w: World, t: nat)
    requires t < |w.actors|
    ensures var r := DieByFallOrBurn(src, w, t);
      && r.score == w.score + BurnScore(ClassOf(w.actors[t].kind))
      && r.citizens == w.citizens - (if w.actors[t].kind.Citizen? then 1 else 0)
      && r.lives == w.lives - (if w.actors[t].kind.Penelope? then 1 else 0)
      && r.finished == w.finished
      && (!w.actors[t].alive && w.actors[t].kind.Landmine? ==> r == w)
  {
    match w.actors[t].kind
    case Zombie(breed, _, _) =>
    case Landmine(_, _) =>
    case _ =>
  }

  /** useExitIfAppropriate on slot t: Penelope asks for the level to be marked
      finished; a citizen is saved (dies, +500 points, counts as gone);
      every other class ignores exits. */
  function UseExit(w: World, t: nat): (r: World)
    requires t < |w.actors|
    ensures Progresses(w, r) && Confined(w.actors, r.actors, t, t, 0)
    ensures w.actors[t].kind.Penelope? ==> r == RecordLevelFinishedIfAllCitizensGone(w)
    ensures w.actors[t].kind.Citizen? ==>
              !r.actors[t].alive && r.citizens == w.citizens - 1 && r.score == w.score + 500
              && r.finished == w.finished && r.sounds == w.sounds + [CitizenSaved]
    ensures !IsHuman(ClassOf(w.actors[t].kind)) ==> r == w
  {
    match w.actors[t].kind
    case Penelope(_, _, _, _, _) => RecordLevelFinishedIfAllCitizensGone(w)
    case Citizen(_, _, _) => Play(RecordCitizenGone(AddScore(SetDead(w, t), 500)), CitizenSaved)
    case _ => w
  }

  /** Human::beVomitedOnIfAppropriate: humans become infected; nobody else
      reacts.  The infection counter is untouched. */
  function BeVomitedOn(w: World, t: nat): (r: World)
    requires t < |w.actors|
    ensures Progresses(w, r) && Confined(w.actors, r.actors, t, t, 0)
    ensures IsHuman(ClassOf(w.actors[t].kind)) ==>
              r.actors == w.actors[t := w.actors[t].(kind := w.actors[t].kind.(infected := true))]
    ensures !IsHuman(ClassOf(w.actors[t].kind)) ==> r == w
    ensures r.(actors := w.actors) == w
    ensures InfectionConsistent(w.actors[t].kind) ==> InfectionConsistent(r.actors[t].kind)
  {
    var a := w.actors[t];
    match a.kind
    case Penelope(_, n, v, f, m) => SetActor(w, t, a.(kind := Penelope(true, n, v, f, m)))
    case Citizen(ta, _, n) => SetActor(w, t, a.(kind := Citizen(ta, true, n)))
    case _ => w
  }

  /** Goodie pickUp: exactly one inventory counter rises, chosen by the goodie:
      +1 vaccine, +5 flame charges or +2 landmines. */
  function Replenish(k: Kind, g: GoodieKind): (r: Kind)
    requires k.Penelope?
    ensures r.Penelope? && r.infected == k.infected && r.infection == k.infection
    ensures r.vaccines == k.vaccines + (if g == VaccineGoodie then 1 else 0)
    ensures r.flameCharges == k.flameCharges + (if g == GasCanGoodie then 5 else 0)
    ensures r.landmines == k.landmines + (if g == LandmineGoodie then 2 else 0)
  {
    match g
    case VaccineGoodie => k.(vaccines := k.vaccines + 1)
    case GasCanGoodie => k.(flameCharges := k.flameCharges + 5)
    case LandmineGoodie => k.(landmines := k.landmines + 2)
  }

  /** pickUpGoodieIfAppropriate(goodie in slot g) on slot t: only Penelope
      reacts; she takes the goodie's contents, the goodie dies, +50 points. */
  function PickUpGoodie(w: World, t: nat, g: nat): (r: World)
    requires t < |w.actors| && g < |w.actors| && w.actors[g].kind.Goodie?
    ensures Progresses(w, r) && Confined(w.actors, r.actors, g, t, 0)
    ensures w.actors[t].kind.Penelope? ==>
              && !r.actors[g].alive && r.score == w.score + 50
              && r.actors[t] == w.actors[t].(kind := Replenish(w.actors[t].kind, w.actors[g].kind.goodie))
              && r.sounds == w.sounds && r.citizens == w.citizens && r.lives == w.lives
    ensures !w.actors[t].kind.Penelope? ==> r == w
  {
    var p := w.actors[t];
    if p.kind.Penelope? then
      var w1 := SetActor(w, t, p.(kind := Replenish(p.kind, w.actors[g].kind.goodie)));
      AddScore(SetDead(w1, g), 50)
    else w
  }

  // ---------------------------------------------------------------------
  // Instigators

  /** activateIfAppropriate of the instigator in slot a on the target in slot b. */
  function Activate(src: Source, w: World, a: nat, b: nat): (r: World)
    requires a < |w.actors| && b < |w.actors|
    ensures Progresses(w, r) && Confined(w.actors, r.actors, a, b, SpawnBound(w.actors, b))
  {
    var inst := w.actors[a];
    match inst.kind
    case Goodie(_) =>
      var w1 := PickUpGoodie(w, b, a);
      if !w1.actors[a].alive then Play(w1, GotGoodie) else w1
    case Flame(_) => if inst.alive then DieByFallOrBurn(src, w, b) else w
    case Vomit(_) => if inst.alive then BeVomitedOn(w, b) else w
    case Landmine(_, active) =>
      if active && Has(w.actors[b], TriggersOnlyActiveLandmines) then Explode(w, a) else w
    case Pit => DieByFallOrBurn(src, w, b)
    case Exit => UseExit(w, b)
    case _ => w
  }

  /** Which hook each instigator runs on a target it overlaps: pits and live
      flames kill by falling or burning, live vomit infects, the exit lets
      people out, an armed landmine explodes under whatever may trigger it,
      and dead projectiles, safe or untriggered landmines, agents and walls
      do nothing. */
  lemma ActivateHooks(src: Source, w: World, a: nat, b: nat)
    requires a < |w.actors| && b < |w.actors|
    ensures var inst := w.actors[a];
      (inst.kind.Pit? || (inst.kind.Flame? && inst.alive)) ==> Activate(src, w, a, b) == DieByFallOrBurn(src, w, b)
    ensures w.actors[a].kind.Vomit? && w.actors[a].alive ==> Activate(src, w, a, b) == BeVomitedOn(w, b)
    ensures w.actors[a].kind.Exit? ==> Activate(src, w, a, b) == UseExit(w, b)
    ensures var inst := w.actors[a];
      inst.kind.Landmine? && inst.kind.active && Has(w.actors[b], TriggersOnlyActiveLandmines) ==> Activate(src, w, a, b) == Explode(w, a)
    ensures var inst := w.actors[a];
      (inst.kind.Flame? || inst.kind.Vomit?) && !inst.alive ==> Activate(src, w, a, b) == w
    ensures var inst := w.actors[a];
      inst.kind.Landmine? && !(inst.kind.active && Has(w.actors[b], TriggersOnlyActiveLandmines)) ==> Activate(src, w, a, b) == w
    ensures IsAgent(ClassOf(w.actors[a].kind)) || w.actors[a].kind.Wall? ==> Activate(src, w, a, b) == w
  {
    ProjectileHooks(src, w, a, b);
    LandmineHook(src, w, a, b);
    InertHooks(src, w, a, b);
  }

  /** The hooks of pits, live projectiles and the exit. */
  lemma ProjectileHooks(src: Source, w: World, a: nat, b: nat)
    requires a < |w.actors| && b < |w.actors|
    ensures var inst := w.actors[a];
      (inst.kind.Pit? || (inst.kind.Flame? && inst.alive)) ==> Activate(src, w, a, b) == DieByFallOrBurn(src, w, b)
    ensures w.actors[a].kind.Vomit? && w.actors[a].alive ==> Activate(src, w, a, b) == BeVomitedOn(w, b)
    ensures w.actors[a].kind.Exit? ==> Activate(src, w, a, b) == UseExit(w, b)
  {
  }

  /** The hook of a landmine: an explosion exactly when armed and triggered. */
  lemma LandmineHook(src: Source, w: World, a: nat, b: nat)
    requires a < |w.actors| && b < |w.actors|
    ensures var inst := w.actors[a];
      inst.kind.Landmine? && inst.kind.active && Has(w.actors[b], TriggersOnlyActiveLandmines) ==> Activate(src, w, a, b) == Explode(w, a)
    ensures var inst := w.actors[a];
      inst.kind.Landmine? && !(inst.kind.active && Has(w.actors[b], TriggersOnlyActiveLandmines)) ==> Activate(src, w, a, b) == w
  {
  }

  /** Instigators whose hook leaves the world as it is. */
  lemma InertHooks(src: Source, w: World, a: nat, b: nat)
    requires a < |w.actors| && b < |w.actors|
    ensures var inst := w.actors[a];
      (inst.kind.Flame? || inst.kind.Vomit?) && !inst.alive ==> Activate(src, w, a, b) == w
    ensures IsAgent(ClassOf(w.actors[a].kind)) || w.actors[a].kind.Wall? ==> Activate(src, w, a, b) == w
  {
  }

  // ---------------------------------------------------------------------
  // The pass

  /** Number of productive actors in s[j..]. */
  function ProductiveFrom(s: seq<Actor>, j: nat): nat
    decreases |s| - j
  {
    if j >= |s| then 0 else (if Productive(ClassOf(s[j].kind)) then 1 else 0) + ProductiveFrom(s, j + 1)
  }

  lemma {:induction false} ProductiveCountKept(s: seq<Actor>, t: seq<Actor>, j: nat)
    requires |s| <= |t|
    requires forall k | j <= k < |s| :: ClassOf(t[k].kind) == ClassOf(s[k].kind)
    requires forall k | |s| <= k < |t| :: !Productive(ClassOf(t[k].kind))
    ensures ProductiveFrom(t, j) == ProductiveFrom(s, j)
    decreases |t| - j
  {
    if j < |t| {
      ProductiveCountKept(s, t, j + 1);
    }
  }

  /** What a pass from slot j promises beyond `Progresses`: nobody moves;
      slots before j, the instigator's own slot and actors not close to the
      instigator keep their state; what is appended is not productive; and
      when nobody from j on is close, nothing changes. */
  predicate PassEffect(w: World, r: World, a: nat, j: nat)
    requires a < |w.actors|
  {
    && Still(w.actors, r.actors)
    && (forall k | 0 <= k < |w.actors| && k != a && (k < j || !CentresClose(w.actors[k].pos, w.actors[a].pos)) ::
          r.actors[k] == w.actors[k])
    && (forall k | |w.actors| <= k < |r.actors| :: !Productive(ClassOf(r.actors[k].kind)))
    && ((forall k | j <= k < |w.actors| && k != a :: !CentresClose(w.actors[k].pos, w.actors[a].pos)) ==> r == w)
  }

  /** An instigator's activateIfAppropriate as the pass sees it: from a
      world, the instigator's slot and the target's slot, the world after the
      call. */
  type Hook = (World, nat, nat) -> World

  /** What the pass relies on from a hook: on slots in range it gives a later
      state confined to the two slots, appending at most the spawn bound of
      the target and nothing productive. */
  ghost predicate HookContract(hook: Hook) {
    forall w: World, a: nat, b: nat | a < |w.actors| && b < |w.actors| ::
      Progresses(w, hook(w, a, b)) && Confined(w.actors, hook(w, a, b).actors, a, b, SpawnBound(w.actors, b))
  }

  /** One slot of the pass: the hook runs on the actor in slot j if it is
      someone else whose centre is close to the instigator's. */
  function PassStep(hook: Hook, w: World, a: nat, j: nat): (r: World)
    requires HookContract(hook)
    requires a < |w.actors| && j < |w.actors|
    ensures Progresses(w, r) && Confined(w.actors, r.actors, a, j, SpawnBound(w.actors, j))
    ensures j == a || !CentresClose(w.actors[j].pos, w.actors[a].pos) ==> r == w
  {
    if j != a && CentresClose(w.actors[j].pos, w.actors[a].pos) then hook(w, a, j) else w
  }

  /** One step of the pass followed by the rest of it is a pass. */
  lemma {:induction false} PassEffectStep(hook: Hook, w: World, r: World, a: nat, j: nat)
    requires HookContract(hook)
    requires a < |w.actors| && j < |w.actors|
    requires var w1 := PassStep(hook, w, a, j);
      Progresses(w1, r) && PassEffect(w1, r, a, j + 1)
    ensures Progresses(w, r) && PassEffect(w, r, a, j)
  {
    var w1 := PassStep(hook, w, a, j);
    ProgressesTransitive(w, w1, r);
    var s, s1, t := w.actors, w1.actors, r.actors;
    assert |s| <= |s1| <= |t|;
    assert s1[a].pos == s[a].pos;
    assert Still(s, t) by {
      forall k | 0 <= k < |s| ensures t[k].pos == s[k].pos && t[k].dir == s[k].dir {
        assert s1[k].pos == s[k].pos && s1[k].dir == s[k].dir;
      }
    }
    forall k | 0 <= k < |s| && k != a && (k < j || !CentresClose(s[k].pos, s[a].pos))
      ensures t[k] == s[k]
    {
      assert s1[k].pos == s[k].pos;
      if k == j {
        assert w1 == w;
      }
    }
    forall k | |s| <= k < |t| ensures !Productive(ClassOf(t[k].kind)) {
      if k < |s1| {
        assert Succeeds(s1[k], t[k]);
      }
    }
    if forall k | j <= k < |s| && k != a :: !CentresClose(s[k].pos, s[a].pos) {
      assert w1 == w;
    }
  }

  /** The hook of every instigator of the game: Activate, drawing from src. */
  function Hooks(src: Source): (h: Hook)
    ensures HookContract(h)
    ensures forall w: World, a: nat, b: nat | a < |w.actors| && b < |w.actors| :: h(w, a, b) == Activate(src, w, a, b)
  {
    (w: World, a: nat, b: nat) => if a < |w.actors| && b < |w.actors| then Activate(src, w, a, b) else w
  }

  /** The overlap pass of StudentWorld::activateOnAppropriateActors from slot
      j on, calling `hook` on every other actor whose centre is close to the
      instigator's.  The list may grow while the pass runs, and actors
      appended during it are visited too.  Nobody moves during a pass, so the
      overlap test against the original positions is the one the game
      makes. */
  function PassFrom(hook: Hook, w: World, a: nat, j: nat): (r: World)
    requires HookContract(hook)
    requires a < |w.actors| && j <= |w.actors|
    ensures Progresses(w, r) && PassEffect(w, r, a, j)
    decreases 10 * ProductiveFrom(w.actors, j) + |w.actors| - j
  {
    if j == |w.actors| then w
    else
      var w1 := PassStep(hook, w, a, j);
      ProductiveCountKept(w.actors, w1.actors, j + 1);
      var r := PassFrom(hook, w1, a, j + 1);
      PassEffectStep(hook, w, r, a, j);
      r
  }

  /** One slot that is the instigator's own or not close to it is passed
      over: the pass from it is the pass from the next slot. */
  lemma PassSkipsSlot(hook: Hook, w: World, a: nat, j: nat)
    requires HookContract(hook)
    requires a < |w.actors| && j < |w.actors|
    requires j == a || !CentresClose(w.actors[j].pos, w.actors[a].pos)
    ensures PassFrom(hook, w, a, j) == PassFrom(hook, w, a, j + 1)
  {
  }

  /** Every slot from j up to b is the instigator's own or not close to it. */
  predicate FarBetween(s: seq<Actor>, a: nat, j: nat, b: nat)
    requires a < |s| && j <= b <= |s|
    decreases b - j
  {
    j == b || ((j == a || !CentresClose(s[j].pos, s[a].pos)) && FarBetween(s, a, j + 1, b))
  }

  lemma {:induction false} FarBetweenHolds(s: seq<Actor>, a: nat, j: nat, b: nat)
    requires a < |s| && j <= b <= |s|
    requires forall k | j <= k < b && k != a :: !CentresClose(s[k].pos, s[a].pos)
    ensures FarBetween(s, a, j, b)
    decreases b - j
  {
    if j < b {
      FarBetweenHolds(s, a, j + 1, b);
    }
  }

  /** Slots that are the instigator's own or not close to it are passed over
      without effect. */
  lemma {:induction false} PassSkipsFar(hook: Hook, w: World, a: nat, j: nat, b: nat)
    requires HookContract(hook)
    requires a < |w.actors| && j <= b <= |w.actors|
    requires FarBetween(w.actors, a, j, b)
    ensures PassFrom(hook, w, a, j) == PassFrom(hook, w, a, b)
    decreases b - j
  {
    if j < b {
      PassSkipsFar(hook, w, a, j + 1, b);
      PassSkipsSlot(hook, w, a, j);
    }
  }

  /** The pass reaches a close actor in slot b with the hook, and then goes
      on from slot b + 1 in the world that hook left behind. */
  lemma PassReaches(hook: Hook, w: World, a: nat, b: nat)
    requires HookContract(hook)
    requires a < |w.actors| && b < |w.actors| && b != a
    requires CentresClose(w.actors[b].pos, w.actors[a].pos)
    ensures PassFrom(hook, w, a, b) == PassFrom(hook, hook(w, a, b), a, b + 1)
  {
  }

  /** A pass from a slot past which nobody is close to the instigator
      changes nothing. */
  lemma PassPastLastContact(hook: Hook, w: World, a: nat, j: nat)
    requires HookContract(hook)
    requires a < |w.actors| && j <= |w.actors|
    requires FarBetween(w.actors, a, j, |w.actors|)
    ensures PassFrom(hook, w, a, j) == w
  {
    PassSkipsFar(hook, w, a, j, |w.actors|);
  }

  /** StudentWorld::activateOnAppropriateActors: activation reaches only actors
      whose centre is within 10 pixels of the instigator's; every other actor
      that was there before keeps its state, and if none is close, nothing
      changes at all. */
  function ActivateOnAppropriateActors(src: Source, w: World, a: nat): (r: World)
    requires a < |w.actors|
    ensures Progresses(w, r) && Still(w.actors, r.actors)
    ensures forall k | 0 <= k < |w.actors| && k != a && !CentresClose(w.actors[k].pos, w.actors[a].pos) ::
              r.actors[k] == w.actors[k]
    ensures (forall k | 0 <= k < |w.actors| && k != a :: !CentresClose(w.actors[k].pos, w.actors[a].pos)) ==> r == w
  {
    var r := PassFrom(Hooks(src), w, a, 0);
    assert PassEffect(w, r, a, 0);
    r
  }

  /** The first close actor the pass meets, in slot b, gets the instigator's
      Activate, and the pass goes on from slot b + 1 in the world that left
      behind. */
  lemma PassFirstContact(src: Source, w: World, a: nat, b: nat)
    requires a < |w.actors| && b < |w.actors| && b != a
    requires CentresClose(w.actors[b].pos, w.actors[a].pos)
    requires FarBetween(w.actors, a, 0, b)
    ensures ActivateOnAppropriateActors(src, w, a) == PassFrom(Hooks(src), Activate(src, w, a, b), a, b + 1)
  {
    PassSkipsFar(Hooks(src), w, a, 0, b);
    PassReaches(Hooks(src), w, a, b);
  }

  /** A pass from slot 0 reaches the first close actor, in slot b, with the
      hook and goes on from slot b + 1 in the world the hook left behind. */
  lemma PassFirstContactHook(hook: Hook, w: World, a: nat, b: nat)
    requires HookContract(hook)
    requires a < |w.actors| && b < |w.actors| && b != a
    requires CentresClose(w.actors[b].pos, w.actors[a].pos)
    requires FarBetween(w.actors, a, 0, b)
    ensures PassFrom(hook, w, a, 0) == PassFrom(hook, hook(w, a, b), a, b + 1)
  {
    PassSkipsFar(hook, w, a, 0, b);
    PassReaches(hook, w, a, b);
  }

  /** After the hook on the only close actor, the rest of the pass changes
      nothing, provided the hook appended nobody close to the instigator. */
  lemma PassAfterOnlyContact(hook: Hook, w: World, a: nat, b: nat)
    requires HookContract(hook)
    requires a < |w.actors| && b < |w.actors| && b != a
    requires forall k | b < k < |w.actors| && k != a :: !CentresClose(w.actors[k].pos, w.actors[a].pos)
    requires forall k | |w.actors| <= k < |hook(w, a, b).actors| :: !CentresClose(hook(w, a, b).actors[k].pos, w.actors[a].pos)
    ensures PassFrom(hook, hook(w, a, b), a, b + 1) == hook(w, a, b)
  {
    var w1 := hook(w, a, b);
    assert Still(w.actors, w1.actors);
    StillKeepsFar(w.actors, w1.actors, a, b + 1);
    FarBetweenHolds(w1.actors, a, b + 1, |w1.actors|);
    PassPastLastContact(hook, w1, a, b + 1);
  }

  /** Nobody moves, so whoever was far from the instigator stays far, and
      appended actors are far when they were placed far. */
  lemma StillKeepsFar(s: seq<Actor>, u: seq<Actor>, a: nat, j: nat)
    requires a < |s| && Still(s, u)
    requires forall k | j <= k < |s| && k != a :: !CentresClose(s[k].pos, s[a].pos)
    requires forall k | |s| <= k < |u| :: !CentresClose(u[k].pos, s[a].pos)
    ensures forall k | j <= k < |u| && k != a :: !CentresClose(u[k].pos, u[a].pos)
  {
    forall k | j <= k < |u| && k != a
      ensures !CentresClose(u[k].pos, u[a].pos)
    {
      if k < |s| {
        assert u[k].pos == s[k].pos;
      }
    }
  }

  /** A pass over an actor in slot b that is the only one close to the
      instigator is that one hook, provided the hook appends nobody close to
      the instigator. */
  lemma SingleContactHook(hook: Hook, w: World, a: nat, b: nat)
    requires HookContract(hook)
    requires a < |w.actors| && b < |w.actors| && b != a
    requires CentresClose(w.actors[b].pos, w.actors[a].pos)
    requires FarBetween(w.actors, a, 0, b)
    requires forall k | b < k < |w.actors| && k != a :: !CentresClose(w.actors[k].pos, w.actors[a].pos)
    requires forall k | |w.actors| <= k < |hook(w, a, b).actors| :: !CentresClose(hook(w, a, b).actors[k].pos, w.actors[a].pos)
    ensures PassFrom(hook, w, a, 0) == hook(w, a, b)
  {
    PassFirstContactHook(hook, w, a, b);
    PassAfterOnlyContact(hook, w, a, b);
  }

  /** When the actor in slot b is the only one close to the instigator, the
      whole pass is that one Activate, provided it appends nobody close to
      the instigator. */
  lemma SingleContactPass(src: Source, w: World, a: nat, b: nat)
    requires a < |w.actors| && b < |w.actors| && b != a
    requires CentresClose(w.actors[b].pos, w.actors[a].pos)
    requires forall k | 0 <= k < |w.actors| && k != a && k != b :: !CentresClose(w.actors[k].pos, w.actors[a].pos)
    ensures var w1 := Activate(src, w, a, b);
      (forall k | |w.actors| <= k < |w1.actors| :: !CentresClose(w1.actors[k].pos, w.actors[a].pos)) ==>
        ActivateOnAppropriateActors(src, w, a) == w1
  {
    var hook := Hooks(src);
    var w1 := hook(w, a, b);
    FarBetweenHolds(w.actors, a, 0, b);
    if forall k | |w.actors| <= k < |w1.actors| :: !CentresClose(w1.actors[k].pos, w.actors[a].pos) {
      SingleContactHook(hook, w, a, b);
    }
  }

  /** A pass whose hook leaves the world as it is, slot after slot, leaves
      the world as it is. */
  lemma IdleHookPass(hook: Hook, w: World, a: nat, j: nat)
    requires HookContract(hook)
    requires a < |w.actors| && j <= |w.actors|
    requires forall k | j <= k < |w.actors| :: hook(w, a, k) == w
    ensures PassFrom(hook, w, a, j) == w
  {
    IdleBetweenHolds(hook, w, a, j, |w.actors|);
    IdleHookPrefix(hook, w, a, j, |w.actors|);
  }

  /** The hook changes nothing on any slot from j up to b. */
  predicate IdleBetween(hook: Hook, w: World, a: nat, j: nat, b: nat)
    decreases b - j
  {
    j >= b || (hook(w, a, j) == w && IdleBetween(hook, w, a, j + 1, b))
  }

  lemma {:induction false} IdleBetweenHolds(hook: Hook, w: World, a: nat, j: nat, b: nat)
    requires j <= b
    requires forall k | j <= k < b :: hook(w, a, k) == w
    ensures IdleBetween(hook, w, a, j, b)
    decreases b - j
  {
    if j < b {
      IdleBetweenHolds(hook, w, a, j + 1, b);
    }
  }

  /** No actor in s[j..e] can set off a landmine. */
  predicate NoTriggerBetween(s: seq<Actor>, j: nat, e: nat)
    requires e <= |s|
    decreases e - j
  {
    j >= e || (!Has(s[j], TriggersOnlyActiveLandmines) && NoTriggerBetween(s, j + 1, e))
  }

  /** A landmine's hook changes nothing on slots none of which can set it off. */
  lemma {:induction false} LandmineIdleBetween(src: Source, w: World, a: nat, j: nat, e: nat)
    requires a < |w.actors| && e <= |w.actors| && w.actors[a].kind.Landmine?
    requires NoTriggerBetween(w.actors, j, e)
    ensures IdleBetween(Hooks(src), w, a, j, e)
    decreases e - j
  {
    if j < e {
      LandmineIdleBetween(src, w, a, j + 1, e);
      LandmineHook(src, w, a, j);
    }
  }

  /** Slots j up to b on which the hook changes nothing are passed over. */
  lemma {:induction false} IdleHookPrefix(hook: Hook, w: World, a: nat, j: nat, b: nat)
    requires HookContract(hook)
    requires a < |w.actors| && j <= b <= |w.actors|
    requires IdleBetween(hook, w, a, j, b)
    ensures PassFrom(hook, w, a, j) == PassFrom(hook, w, a, b)
    decreases b - j
  {
    if j < b {
      assert hook(w, a, j) == w && IdleBetween(hook, w, a, j + 1, b);
      IdleHookPrefix(hook, w, a, j + 1, b);
      IdleHookStep(hook, w, a, j);
    }
  }

  /** The pass from slot b on, where the hook acts on close slot b and then
      on nobody in the list it leaves behind, is that one hook call. */
  lemma ActiveContactThenIdle(hook: Hook, w: World, a: nat, b: nat, w1: World)
    requires HookContract(hook)
    requires a < |w.actors| && b < |w.actors| && b != a
    requires CentresClose(w.actors[b].pos, w.actors[a].pos)
    requires w1 == hook(w, a, b) && b < |w1.actors|
    requires IdleBetween(hook, w1, a, b + 1, |w1.actors|)
    ensures PassFrom(hook, w, a, b) == w1
  {
    IdleHookPrefix(hook, w1, a, b + 1, |w1.actors|);
    PassReachesThen(hook, w, a, b, w1, PassFrom(hook, w1, a, |w1.actors|));
  }

  /** PassReaches with both worlds named. */
  lemma PassReachesThen(hook: Hook, w: World, a: nat, b: nat, w1: World, r: World)
    requires HookContract(hook)
    requires a < |w.actors| && b < |w.actors| && b != a
    requires CentresClose(w.actors[b].pos, w.actors[a].pos)
    requires w1 == hook(w, a, b) && b < |w1.actors|
    requires PassFrom(hook, w1, a, b + 1) == r
    ensures PassFrom(hook, w, a, b) == r
  {
    PassReaches(hook, w, a, b);
  }

  /** A pass in which the hook does something on one close slot b only, both
      in the list before it and in the list that hook leaves behind, is that
      one hook call. */
  lemma OnlyActiveContact(hook: Hook, w: World, a: nat, b: nat)
    requires HookContract(hook)
    requires a < |w.actors| && b < |w.actors| && b != a
    requires CentresClose(w.actors[b].pos, w.actors[a].pos)
    requires IdleBetween(hook, w, a, 0, b)
    requires var w1 := hook(w, a, b); IdleBetween(hook, w1, a, b + 1, |w1.actors|)
    ensures PassFrom(hook, w, a, 0) == hook(w, a, b)
  {
    var w1 := hook(w, a, b);
    assert Confined(w.actors, w1.actors, a, b, SpawnBound(w.actors, b));
    ActiveContactThenIdle(hook, w, a, b, w1);
    IdleHookPrefix(hook, w, a, 0, b);
  }

  lemma IdleHookStep(hook: Hook, w: World, a: nat, j: nat)
    requires HookContract(hook)
    requires a < |w.actors| && j < |w.actors| && hook(w, a, j) == w
    ensures PassFrom(hook, w, a, j) == PassFrom(hook, w, a, j + 1)
  {
    assert PassStep(hook, w, a, j) == w;
  }

  /** A dead flame or vomit has no effect on anything it overlaps. */
  lemma DeadProjectilePassIsInert(src: Source, w: World, a: nat, j: nat)
    requires a < |w.actors| && j <= |w.actors|
    requires (w.actors[a].kind.Flame? || w.actors[a].kind.Vomit?) && !w.actors[a].alive
    ensures PassFrom(Hooks(src), w, a, j) == w
  {
    forall k | j <= k < |w.actors|
      ensures Hooks(src)(w, a, k) == w
    {
      assert Activate(src, w, a, k) == w;
    }
    IdleHookPass(Hooks(src), w, a, j);
  }

  /** An armed landmine explodes on an agent even after it has died, because
      the landmine's activateIfAppropriate does not check its own liveness. */
  lemma DeadArmedLandmineStillExplodes(src: Source, w: World, a: nat, b: nat)
    requires a < |w.actors| && b < |w.actors|
    requires w.actors[a].kind.Landmine? && w.actors[a].kind.active && !w.actors[a].alive
    requires IsAgent(ClassOf(w.actors[b].kind))
    ensures Activate(src, w, a, b).actors == w.actors + Blast(w.actors[a].pos)
    ensures Activate(src, w, a, b).sounds == w.sounds + [LandmineExplode]
  {
    assert w.actors[a := w.actors[a].(alive := false)] == w.actors;
  }

  /** Two agents on an armed landmine in one pass set it off twice: the
      second activation finds it dead but still armed, so two blasts of nine
      actors are appended and the explosion sound is requested twice. */
  lemma ArmedLandmineExplodesTwice(src: Source, w: World, a: nat, b1: nat, b2: nat)
    requires a < |w.actors| && b1 < |w.actors| && b2 < |w.actors| && b2 != a
    requires w.actors[a].kind.Landmine? && w.actors[a].kind.active && w.actors[a].alive
    requires IsAgent(ClassOf(w.actors[b1].kind)) && IsAgent(ClassOf(w.actors[b2].kind))
    ensures var r := Activate(src, Activate(src, w, a, b1), a, b2);
      && r.actors == w.actors[a := w.actors[a].(alive := false)] + Blast(w.actors[a].pos) + Blast(w.actors[a].pos)
      && r.sounds == w.sounds + [LandmineExplode, LandmineExplode]
  {
    var w1 := Activate(src, w, a, b1);
    assert w1 == Explode(w, a);
    assert w1.actors[b2] == w.actors[b2];
    DeadArmedLandmineStillExplodes(src, w1, a, b2);
  }

  /** Burning makes a live landmine explode whether or not it is armed. */
  lemma BurningExplodesLiveLandmine(src: Source, w: World, t: nat)
    requires t < |w.actors| && w.actors[t].kind.Landmine? && w.actors[t].alive
    ensures DieByFallOrBurn(src, w, t) == Explode(w, t)
    ensures |DieByFallOrBurn(src, w, t).actors| == |w.actors| + 9
  {
  }

  /** A goodie activating on Penelope: it dies, +50 points and exactly one
      inventory counter rises, then the pickup sound is requested. */
  lemma GoodiePickup(src: Source, w: World, a: nat, b: nat)
    requires a < |w.actors| && b < |w.actors| && a != b
    requires w.actors[a].kind.Goodie? && w.actors[b].kind.Penelope?
    ensures var r := Activate(src, w, a, b);
      && !r.actors[a].alive && r.score == w.score + 50
      && r.actors[b].kind == Replenish(w.actors[b].kind, w.actors[a].kind.goodie)
      && r.sounds == w.sounds + [GotGoodie]
      && |r.actors| == |w.actors|
  {
  }

  /** Every part of the blast is one cell from the centre on each axis at
      most, and only the centre holds the pit. */
  lemma BlastCoversNeighbourhood(c: Pos, dx: int, dy: int)
    requires -1 <= dx <= 1 && -1 <= dy <= 1
    ensures var k := 3 * (dx + 1) + (dy + 1);
      && 0 <= k < 9
      && Blast(c)[k].pos == Pos(c.x + dx * SpriteWidth, c.y + dy * SpriteHeight)
      && (Blast(c)[k].kind.Pit? <==> dx == 0 && dy == 0)
      && (!Blast(c)[k].kind.Pit? ==> Blast(c)[k].kind == Flame(0))
  {
    var k := 3 * (dx + 1) + (dy + 1);
    assert k / 3 == dx + 1 && k % 3 == dy + 1;
  }
}
