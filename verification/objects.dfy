/** The per-tick behaviour of the objects: goodies, pits and exits run an
    activation pass while alive; flames and vomit do so for three ticks and
    die on the fourth; a landmine counts down its safety period, arms, and
    from then on runs a pass every tick; walls do nothing. */
module Objects {
  import opened Geometry
  import opened Actors
  import opened Worlds
  import opened Activation

  /** Age at which a projectile dies. */
  const ProjectileLifetime: nat := 3

  /** Goodies::doSomething, Pit::doSomething and Exit::doSomething: a live one
      runs an activation pass; a dead one does nothing. */
  function PassIfAlive(src: Source, w: World, i: nat): (r: World)
    requires i < |w.actors|
    ensures Progresses(w, r) && Still(w.actors, r.actors)
    ensures !w.actors[i].alive ==> r == w
    ensures w.actors[i].alive ==> r == ActivateOnAppropriateActors(src, w, i)
    ensures forall k | 0 <= k < |w.actors| && k != i && !CentresClose(w.actors[k].pos, w.actors[i].pos) ::
              r.actors[k] == w.actors[k]
    ensures (forall k | 0 <= k < |w.actors| && k != i :: !CentresClose(w.actors[k].pos, w.actors[i].pos)) ==> r == w
  {
    if w.actors[i].alive then ActivateOnAppropriateActors(src, w, i) else w
  }

  /** One tick older, for a flame or vomit. */
  function Older(k: Kind): (r: Kind)
    requires k.Flame? || k.Vomit?
    ensures ClassOf(r) == ClassOf(k) && r.age == k.age + 1
  {
    match k
    case Flame(a) => Flame(a + 1)
    case Vomit(a) => Vomit(a + 1)
  }

  /** Projectiles::doSomething: a live projectile of age 3 dies first and so
      affects nobody; a younger one runs its pass; either way it ages.  What
      happens to the projectile itself is stated by ProjectileTickAges, what
      happens to the others by ProjectileTickIsLocal. */
  function ProjectileTick(src: Source, w: World, i: nat): (r: World)
    requires i < |w.actors| && (w.actors[i].kind.Flame? || w.actors[i].kind.Vomit?)
    ensures Progresses(w, r) && Still(w.actors, r.actors)
    ensures !w.actors[i].alive ==> r == w
  {
    var p := w.actors[i];
    if !p.alive then w
    else
      var w1 := if p.kind.age == ProjectileLifetime then SetDead(w, i) else w;
      var w2 := ActivateOnAppropriateActors(src, w1, i);
      AgedAfterPass(w, w1, w2, i, Older(p.kind));
      SetActor(w2, i, w2.actors[i].(kind := Older(p.kind)))
  }

  /** Re-aging the projectile after its pass keeps the tick a progression in
      which nobody moves. */
  lemma AgedAfterPass(w: World, w1: World, w2: World, i: nat, k: Kind)
    requires i < |w.actors| && w.actors[i].alive && ClassOf(k) == ClassOf(w.actors[i].kind)
    requires w1 == w || w1 == SetDead(w, i)
    requires Progresses(w1, w2) && Still(w1.actors, w2.actors)
    ensures var r := SetActor(w2, i, w2.actors[i].(kind := k));
      Progresses(w, r) && Still(w.actors, r.actors)
  {
    ProgressesTransitive(w, w1, w2);
    RewriteLiveActor(w, w2, i, w2.actors[i].(kind := k));
  }

  /** A live projectile is one tick older afterwards, where it was and facing
      the same way; at age 3 it dies and nothing else changes; younger, it
      runs its activation pass over the world as it is. */
  lemma ProjectileTickAges(src: Source, w: World, i: nat)
    requires i < |w.actors| && (w.actors[i].kind.Flame? || w.actors[i].kind.Vomit?) && w.actors[i].alive
    ensures var p, r := w.actors[i], ProjectileTick(src, w, i);
      r.actors[i].kind == Older(p.kind) && r.actors[i].pos == p.pos && r.actors[i].dir == p.dir
    ensures var p := w.actors[i];
      p.kind.age == ProjectileLifetime ==>
        ProjectileTick(src, w, i) == SetActor(w, i, p.(kind := Older(p.kind), alive := false))
    ensures var p, a := w.actors[i], ActivateOnAppropriateActors(src, w, i);
      p.kind.age != ProjectileLifetime ==>
        ProjectileTick(src, w, i) == SetActor(a, i, a.actors[i].(kind := Older(p.kind)))
  {
    if w.actors[i].kind.age == ProjectileLifetime {
      ExpiringProjectileDies(src, w, i);
    } else {
      YoungProjectileRunsPass(src, w, i);
    }
  }

  /** The age-3 half of ProjectileTickAges. */
  lemma ExpiringProjectileDies(src: Source, w: World, i: nat)
    requires i < |w.actors| && (w.actors[i].kind.Flame? || w.actors[i].kind.Vomit?) && w.actors[i].alive
    requires w.actors[i].kind.age == ProjectileLifetime
    ensures var p := w.actors[i];
      ProjectileTick(src, w, i) == SetActor(w, i, p.(kind := Older(p.kind), alive := false))
  {
    var p := w.actors[i];
    var w1 := SetDead(w, i);
    DeadProjectilePassIsInert(src, w1, i, 0);
    assert ActivateOnAppropriateActors(src, w1, i) == w1;
    assert w1.actors[i].(kind := Older(p.kind)) == p.(kind := Older(p.kind), alive := false);
  }

  /** The younger half of ProjectileTickAges. */
  lemma YoungProjectileRunsPass(src: Source, w: World, i: nat)
    requires i < |w.actors| && (w.actors[i].kind.Flame? || w.actors[i].kind.Vomit?) && w.actors[i].alive
    requires w.actors[i].kind.age != ProjectileLifetime
    ensures var p, a := w.actors[i], ActivateOnAppropriateActors(src, w, i);
      ProjectileTick(src, w, i) == SetActor(a, i, a.actors[i].(kind := Older(p.kind)))
  {
  }

  /** A young projectile with nobody close to it only ages. */
  lemma LoneProjectileAges(src: Source, w: World, i: nat)
    requires i < |w.actors| && (w.actors[i].kind.Flame? || w.actors[i].kind.Vomit?) && w.actors[i].alive
    requires w.actors[i].kind.age != ProjectileLifetime
    requires forall k | 0 <= k < |w.actors| && k != i :: !CentresClose(w.actors[k].pos, w.actors[i].pos)
    ensures ProjectileTick(src, w, i) == SetActor(w, i, w.actors[i].(kind := Older(w.actors[i].kind)))
  {
    ProjectileTickAges(src, w, i);
  }

  /** A projectile's tick leaves every other actor that it does not overlap
      as it was. */
  lemma ProjectileTickIsLocal(src: Source, w: World, i: nat)
    requires i < |w.actors| && (w.actors[i].kind.Flame? || w.actors[i].kind.Vomit?)
    ensures var r := ProjectileTick(src, w, i);
      forall k | 0 <= k < |w.actors| && k != i && !CentresClose(w.actors[k].pos, w.actors[i].pos) ::
        r.actors[k] == w.actors[k]
  {
  }

  /** The landmine's safety countdown for one tick: while unarmed, a positive
      safety counts down and a zero safety arms it; an armed one is unchanged. */
  function ArmStep(k: Kind): (r: Kind)
    requires k.Landmine?
    ensures r.Landmine?
  {
    if k.active then k
    else if k.safety > 0 then Landmine(k.safety - 1, false)
    else Landmine(k.safety, true)
  }

  /** The landmine state after `n` ticks of countdown. */
  function AfterTicks(k: Kind, n: nat): (r: Kind)
    requires k.Landmine?
    ensures r.Landmine?
    decreases n
  {
    if n == 0 then k else AfterTicks(ArmStep(k), n - 1)
  }

  /** Landmine::doSomething: a live landmine counts down while unarmed and,
      once armed, runs an activation pass every tick. */
  function LandmineTick(src: Source, w: World, i: nat): (r: World)
    requires i < |w.actors| && w.actors[i].kind.Landmine?
    ensures Progresses(w, r) && Still(w.actors, r.actors)
    ensures !w.actors[i].alive ==> r == w
    ensures var m := w.actors[i];
      m.alive && !m.kind.active ==> r == SetActor(w, i, m.(kind := ArmStep(m.kind)))
    ensures var m := w.actors[i];
      m.alive && m.kind.active ==> r == ActivateOnAppropriateActors(src, w, i)
    ensures forall k | 0 <= k < |w.actors| && k != i && !CentresClose(w.actors[k].pos, w.actors[i].pos) ::
              r.actors[k] == w.actors[k]
    ensures (forall k | 0 <= k < |w.actors| && k != i :: !CentresClose(w.actors[k].pos, w.actors[i].pos)) ==> r.score == w.score && r.sounds == w.sounds && r.citizens == w.citizens
  {
    var m := w.actors[i];
    if !m.alive then w
    else if !m.kind.active then SetActor(w, i, m.(kind := ArmStep(m.kind)))
    else ActivateOnAppropriateActors(src, w, i)
  }

  // ---------------------------------------------------------------------
  // Properties

  /** An armed landmine with exactly one agent in the level, standing on it,
      explodes once on its tick: the landmine dies and the 3x3 blast is
      appended.  The blast's own flames and pit, which the pass reaches
      too, do not set it off again. */
  lemma AgentSetsOffArmedLandmine(src: Source, w: World, i: nat, b: nat)
    requires i < |w.actors| && b < |w.actors|
    requires w.actors[i].kind.Landmine? && w.actors[i].alive && w.actors[i].kind.active
    requires CentresClose(w.actors[b].pos, w.actors[i].pos) && Has(w.actors[b], TriggersOnlyActiveLandmines)
    requires forall k | 0 <= k < |w.actors| && k != b :: !Has(w.actors[k], TriggersOnlyActiveLandmines)
    ensures LandmineTick(src, w, i) == Explode(w, i)
  {
    ArmedPassExplodes(src, w, i, b);
  }

  /** The activation pass of such a landmine is the one explosion. */
  lemma ArmedPassExplodes(src: Source, w: World, i: nat, b: nat)
    requires i < |w.actors| && b < |w.actors|
    requires w.actors[i].kind.Landmine? && w.actors[i].alive && w.actors[i].kind.active
    requires CentresClose(w.actors[b].pos, w.actors[i].pos) && Has(w.actors[b], TriggersOnlyActiveLandmines)
    requires forall k | 0 <= k < |w.actors| && k != b :: !Has(w.actors[k], TriggersOnlyActiveLandmines)
    ensures ActivateOnAppropriateActors(src, w, i) == Explode(w, i)
  {
    var hook := Hooks(src);
    assert b != i;
    IdleBeforeTrigger(src, w, i, b);
    ActivateHooks(src, w, i, b);
    assert hook(w, i, b) == Explode(w, i);
    IdleAfterBlast(src, w, i, b);
    OnlyActiveContact(hook, w, i, b);
  }

  /** No actor before the only trigger sets the landmine off. */
  lemma IdleBeforeTrigger(src: Source, w: World, i: nat, b: nat)
    requires i < |w.actors| && b < |w.actors| && w.actors[i].kind.Landmine?
    requires forall k | 0 <= k < |w.actors| && k != b :: !Has(w.actors[k], TriggersOnlyActiveLandmines)
    ensures IdleBetween(Hooks(src), w, i, 0, b)
  {
    NoTriggerBefore(w.actors, b, 0);
    LandmineIdleBetween(src, w, i, 0, b);
  }

  lemma {:induction false} NoTriggerBefore(s: seq<Actor>, b: nat, j: nat)
    requires b < |s|
    requires forall k | 0 <= k < |s| && k != b :: !Has(s[k], TriggersOnlyActiveLandmines)
    ensures NoTriggerBetween(s, j, b)
    decreases b - j
  {
    if j < b {
      NoTriggerBefore(s, b, j + 1);
    }
  }

  /** No actor after the trigger, blast included, sets the landmine off
      again in the world the explosion leaves. */
  lemma IdleAfterBlast(src: Source, w: World, i: nat, b: nat)
    requires i < |w.actors| && b < |w.actors| && w.actors[i].kind.Landmine?
    requires forall k | 0 <= k < |w.actors| && k != b :: !Has(w.actors[k], TriggersOnlyActiveLandmines)
    ensures var w1 := Explode(w, i); b < |w1.actors| && IdleBetween(Hooks(src), w1, i, b + 1, |w1.actors|)
  {
    var w1 := Explode(w, i);
    NoTriggerAfterBlast(w, w1, i, b, b + 1);
    BlastDoesNotTrigger(w, w1, i, i);
    LandmineIdleBetween(src, w1, i, b + 1, |w1.actors|);
  }

  lemma {:induction false} NoTriggerAfterBlast(w: World, w1: World, i: nat, b: nat, j: nat)
    requires i < |w.actors| && b < |w.actors| && w1 == Explode(w, i) && b < j <= |w1.actors|
    requires forall k | 0 <= k < |w.actors| && k != b :: !Has(w.actors[k], TriggersOnlyActiveLandmines)
    ensures NoTriggerBetween(w1.actors, j, |w1.actors|)
    decreases |w1.actors| - j
  {
    if j < |w1.actors| {
      NoTriggerAfterBlast(w, w1, i, b, j + 1);
      BlastDoesNotTrigger(w, w1, i, j);
    }
  }

  /** After an explosion no actor in the list but those that were there
      and could trigger landmines can trigger one. */
  lemma BlastDoesNotTrigger(w: World, w1: World, i: nat, k: nat)
    requires i < |w.actors| && w1 == Explode(w, i) && k < |w1.actors|
    requires k < |w.actors| ==> !Has(w.actors[k], TriggersOnlyActiveLandmines)
    ensures w1.actors[i].kind == w.actors[i].kind
    ensures !Has(w1.actors[k], TriggersOnlyActiveLandmines)
  {
    if k >= |w.actors| {
      var blast := Blast(w.actors[i].pos);
      assert w1.actors[k] == blast[k - |w.actors|];
      assert blast[k - |w.actors|].kind.Pit? || blast[k - |w.actors|].kind.Flame?;
    }
  }

  /** An unarmed landmine with safety s is still unarmed, at safety s - n,
      after n <= s ticks, and is armed from tick s + 1 on. */
  lemma {:induction false} CountdownArms(s: nat, n: nat)
    ensures AfterTicks(Landmine(s, false), n) == if n <= s then Landmine(s - n, false) else Landmine(0, true)
    decreases n
  {
    if n == 0 {
    } else if s == 0 {
      ArmedStaysArmed(Landmine(0, true), n - 1);
    } else {
      CountdownArms(s - 1, n - 1);
    }
  }

  /** An armed landmine stays armed. */
  lemma {:induction false} ArmedStaysArmed(k: Kind, n: nat)
    requires k.Landmine? && k.active
    ensures AfterTicks(k, n) == k
    decreases n
  {
    if n > 0 {
      ArmedStaysArmed(k, n - 1);
    }
  }

  /** A new landmine is harmless on its first 31 ticks and armed from the
      32nd; from that tick on LandmineTick runs its activation pass. */
  lemma NewLandmineArming(p: Pos, n: nat)
    ensures AfterTicks(NewLandmine(p).kind, n).active <==> n > 30
  {
    CountdownArms(30, n);
  }

  /** A projectile affects the world on three ticks of its life at most: on
      its fourth tick it dies without touching anyone else. */
  lemma ProjectileExpires(src: Source, w: World, i: nat)
    requires i < |w.actors| && w.actors[i].alive && w.actors[i].kind == Flame(ProjectileLifetime)
    ensures var r := ProjectileTick(src, w, i);
      && r.actors == w.actors[i := w.actors[i].(kind := Flame(ProjectileLifetime + 1), alive := false)]
      && r.score == w.score && r.sounds == w.sounds && r.rolls == w.rolls
  {
    ProjectileTickAges(src, w, i);
  }
}
