/** A citizen's per-tick behaviour: ageing, the infection clock and the
    change into a zombie, then on every other tick following Penelope or
    fleeing the nearest zombie, two pixels at a time. */
module Citizens {
  import opened Geometry
  import opened Actors
  import opened Options
  import opened Worlds
  import opened Queries
  import opened Agents
  import opened Activation

  /** Pixels a citizen moves per step. */
  const CitizenStep: int := 2

  // ---------------------------------------------------------------------
  // Turning

  /** Citizen::turnIntoZombie: the citizen dies as a citizen (gone, -1000
      points), the birth sound is requested, and a zombie appears on its
      position: dumb on a draw of 1..7 in [1,10], smart otherwise. */
  function TurnIntoZombie(src: Source, w: World, i: nat): (r: World)
    requires i < |w.actors| && w.actors[i].kind.Citizen?
    ensures Progresses(w, r)
    ensures |r.actors| == |w.actors| + 1
    ensures r.actors[..|w.actors|] == w.actors[i := w.actors[i].(alive := false)]
    ensures var z := r.actors[|w.actors|];
      && z.kind.Zombie? && z.alive && z.pos == w.actors[i].pos && z.kind.plan == 0
      && (z.kind.breed == Dumb <==> src(w.rolls) % 10 < 7)
    ensures r.score == w.score - 1000 && r.citizens == w.citizens - 1 && r.lives == w.lives
    ensures r.sounds == w.sounds + [ZombieBorn] && r.rolls == w.rolls + 1
  {
    var w1 := Play(KillCitizen(w, i), ZombieBorn);
    var (chance, w2) := Roll(src, w1, 1, 10);
    var breed := if chance <= 7 then Dumb else Smart;
    Spawn(w2, NewZombie(breed, w.actors[i].pos))
  }

  // ---------------------------------------------------------------------
  // Following Penelope

  /** Citizen::moveTowards: try the primary direction toward `target`, then
      the other axis's direction if the target is off both axes.  The answer
      says whether a step was taken. */
  function MoveTowards(src: Source, w: World, i: nat, target: Pos): (r: (bool, World))
    requires i < |w.actors|
    ensures Relocated(w, r.1, i, CitizenStep)
    ensures r.0 <==> r.1.actors[i].pos != w.actors[i].pos
    ensures r.0 && w.actors[i].pos != target ==>
              exists d: Dir :: Toward(w.actors[i].pos, target, d) && r.1.actors[i].pos == Shift(w.actors[i].pos, d, CitizenStep)
    ensures !r.0 ==> r.1.actors == w.actors
    ensures !MovementBlocked(w.actors, i, Shift(w.actors[i].pos, FindDirectionTo(src, w, w.actors[i].pos, target).0.primary, CitizenStep)) ==> r.0
  {
    var me := w.actors[i];
    var (h, w1) := FindDirectionTo(src, w, me.pos, target);
    var (ok, w2) := TryMove(w1, i, h.primary, CitizenStep);
    if ok then (true, w2)
    else match h.fallback
      case Some(alt) =>
        var r := TryMove(w1, i, alt, CitizenStep);
        assert r.0 ==> r.1.actors[i].pos == Shift(me.pos, alt, CitizenStep);
        r
      case None => (false, w1)
  }

  // ---------------------------------------------------------------------
  // Fleeing zombies

  /** Citizen::checksZombieDistance: the squared distance to the nearest
      zombie seen from two pixels along `d`, or 0 if that step is blocked.
      With no zombie the search's initial 1000 comes back. */
  function EscapeDistance(s: seq<Actor>, i: nat, d: Dir): (r: int)
    requires i < |s|
    ensures MovementBlocked(s, i, Shift(s[i].pos, d, CitizenStep)) ==> r == 0
    ensures r <= Unseen2
  {
    var p := Shift(s[i].pos, d, CitizenStep);
    if MovementBlocked(s, i, p) then 0
    else
      NearestSpec(s, p, ThreatensCitizens, s[i].pos);
      Nearest(s, p, ThreatensCitizens, s[i].pos).dist2
  }

  /** An open step's escape distance is the squared distance from the
      stepped position to the nearest zombie: no zombie is nearer, some zombie
      is that far unless the value is the 1000-pixel sentinel, and with no
      zombie at all the sentinel comes back. */
  lemma EscapeDistanceMeans(s: seq<Actor>, i: nat, d: Dir)
    requires i < |s|
    ensures var p, r := Shift(s[i].pos, d, CitizenStep), EscapeDistance(s, i, d);
      !MovementBlocked(s, i, p) ==>
        && (forall j | 0 <= j < |s| && Has(s[j], ThreatensCitizens) :: r <= Dist2(s[j].pos, p))
        && (r < Unseen2 ==> exists j | 0 <= j < |s| && Has(s[j], ThreatensCitizens) :: r == Dist2(s[j].pos, p))
        && ((forall j | 0 <= j < |s| :: !Has(s[j], ThreatensCitizens)) ==> r == Unseen2)
  {
    var p := Shift(s[i].pos, d, CitizenStep);
    NearestSpec(s, p, ThreatensCitizens, s[i].pos);
  }

  /** The loop of Citizen::moveAwayFrom over the candidates es[k..], with the
      best value so far in `best` and its index in `choice` (-1 for none):
      only a strictly larger value wins, so the earliest of equal candidates
      is kept. */
  function ArgMaxFrom(es: seq<int>, k: nat, best: int, choice: int): (r: (int, int))
    requires k <= |es|
    ensures r.0 >= best
    ensures r.0 == best ==> r.1 == choice
    ensures r.0 > best ==> k <= r.1 < |es| && es[r.1] == r.0 && forall j | k <= j < r.1 :: es[j] < r.0
    ensures forall j | k <= j < |es| :: es[j] <= r.0
    decreases |es| - k
  {
    if k == |es| then (best, choice)
    else if es[k] > best then ArgMaxFrom(es, k + 1, es[k], k)
    else ArgMaxFrom(es, k + 1, best, choice)
  }

  /** The escape distances of the four directions, in the order tried. */
  function EscapeDistances(s: seq<Actor>, i: nat): (es: seq<int>)
    requires i < |s|
    ensures |es| == 4 && forall j | 0 <= j < 4 :: es[j] == EscapeDistance(s, i, AllDirs[j])
  {
    [EscapeDistance(s, i, Up), EscapeDistance(s, i, Down), EscapeDistance(s, i, Left), EscapeDistance(s, i, Right)]
  }

  /** Citizen::moveAwayFrom(z): take a 2-pixel step in the first direction,
      among up, down, left, right, that puts the nearest zombie farthest away,
      provided that is strictly farther than `z` is now; otherwise stay. */
  function MoveAwayFrom(w: World, i: nat, z: Pos): (r: World)
    requires i < |w.actors|
    ensures Relocated(w, r, i, CitizenStep) && r.rolls == w.rolls
    ensures (forall d: Dir :: EscapeDistance(w.actors, i, d) <= Dist2(w.actors[i].pos, z)) ==> r == w
    ensures r != w ==> exists d: Dir ::
              && r.actors[i].pos == Shift(w.actors[i].pos, d, CitizenStep) && r.actors[i].dir == d
              && EscapeDistance(w.actors, i, d) > Dist2(w.actors[i].pos, z)
              && (forall d': Dir :: EscapeDistance(w.actors, i, d') <= EscapeDistance(w.actors, i, d))
              && (forall d': Dir :: DirIndex(d') < DirIndex(d) ==> EscapeDistance(w.actors, i, d') < EscapeDistance(w.actors, i, d))
  {
    var base := Dist2(w.actors[i].pos, z);
    var es := EscapeDistances(w.actors, i);
    var (best, choice) := ArgMaxFrom(es, 0, base, -1);
    if best == base then
      assert forall d: Dir :: EscapeDistance(w.actors, i, d) == es[DirIndex(d)];
      w
    else
      var d := AllDirs[choice];
      assert DirIndex(d) == choice;
      assert forall d': Dir :: EscapeDistance(w.actors, i, d') == es[DirIndex(d')];
      assert !MovementBlocked(w.actors, i, Shift(w.actors[i].pos, d, CitizenStep)) by {
        Dist2ZeroIffSame(w.actors[i].pos, z);
      }
      var r := TryMove(w, i, d, CitizenStep).1;
      assert r.actors[i].pos == Shift(w.actors[i].pos, d, CitizenStep) && r.actors[i].dir == d;
      assert EscapeDistance(w.actors, i, d) > base;
      r
  }

  /** Where `d` sits in AllDirs. */
  function DirIndex(d: Dir): (k: nat)
    ensures k < 4 && AllDirs[k] == d
  {
    match d
    case Up => 0
    case Down => 1
    case Left => 2
    case Right => 3
  }

  // ---------------------------------------------------------------------
  // The tick

  /** Steps four and five of Citizen::doSomething for a live citizen on a
      moving tick: follow Penelope if she is the nearest trigger and within
      80 pixels and a step toward her is free; otherwise flee the nearest
      zombie if it is within 80 pixels. */
  function CitizenMoves(src: Source, w: World, i: nat): (r: World)
    requires i < |w.actors|
    ensures Relocated(w, r, i, CitizenStep)
  {
    var me := w.actors[i];
    var (trig, isThreat) := NearestCitizenTrigger(w.actors, me.pos, me.pos);
    if !trig.found then w
    else if isThreat then
      if trig.dist2 < Sq(SightRadius) then MoveAwayFrom(w, i, trig.pos) else w
    else
      var (moved, w1) :=
        if trig.dist2 < Sq(SightRadius) then MoveTowards(src, w, i, trig.pos) else (false, w);
      if moved then w1
      else
        var threat := Nearest(w1.actors, me.pos, ThreatensCitizens, me.pos);
        if !threat.found then w1
        else if threat.dist2 < Sq(SightRadius) then MoveAwayFrom(w1, i, threat.pos)
        else w1
  }

  /** The citizen's state after the first steps of its tick: one tick older,
      and one more tick of infection if infected. */
  function Aged(k: Kind): (r: Kind)
    requires k.Citizen?
    ensures r.Citizen? && r.timeAlive == k.timeAlive + 1 && r.infected == k.infected
    ensures r.infection == k.infection + (if k.infected then 1 else 0)
  {
    var k1 := Incubate(k);
    Citizen(k1.timeAlive + 1, k1.infected, k1.infection)
  }

  /** Citizen::doSomething for the citizen in slot i.  A dead citizen does
      nothing.  Otherwise it ages, counts its infection (announcing the first
      tick of it), turns into a zombie past 500, and on odd ticks of its life
      moves as `CitizenMoves` says.  The outcomes are stated by
      CitizenTickTurns and CitizenTickStays. */
  function CitizenTick(src: Source, w: World, i: nat): (r: World)
    requires i < |w.actors| && w.actors[i].kind.Citizen?
    ensures Progresses(w, r)
    ensures !w.actors[i].alive ==> r == w
    ensures var k := Aged(w.actors[i].kind);
      w.actors[i].alive ==>
        && r.actors[i].kind == k
        && r.sounds == w.sounds + (if k.infection == 1 then [CitizenInfected] else [])
                                + (if k.infection > InfectionLimit then [ZombieBorn] else [])
    ensures InfectionConsistent(w.actors[i].kind) ==> InfectionConsistent(r.actors[i].kind)
  {
    var me := w.actors[i];
    if !me.alive then w
    else
      var k := Aged(me.kind);
      var w1 := SetActor(w, i, me.(kind := k));
      var w2 := if k.infection == 1 then Play(w1, CitizenInfected) else w1;
      if k.infection > InfectionLimit then TurnIntoZombie(src, w2, i)
      else if k.timeAlive % 2 == 0 then w2
      else
        var r := CitizenMoves(src, w2, i);
        RelocatedProgresses(w, w2, r, i);
        r
  }

  /** A move after the first steps of the tick keeps the tick a progression
      and changes neither the citizen's state nor the sounds. */
  lemma RelocatedProgresses(w: World, w2: World, r: World, i: nat)
    requires i < |w.actors| && Progresses(w, w2) && w2.actors[i].alive && Relocated(w2, r, i, CitizenStep)
    ensures Progresses(w, r) && r.actors[i].kind == w2.actors[i].kind && r.sounds == w2.sounds
    ensures r.actors[i].alive == w2.actors[i].alive
  {
    assert Succeeds(w2.actors[i], r.actors[i]);
    ProgressesTransitive(w, w2, r);
  }

  /** A live citizen whose count passes 500 this tick turns: it dies as a
      citizen for -1000 points, one citizen is gone, and a zombie is appended
      on its position. */
  lemma CitizenTickTurns(src: Source, w: World, i: nat)
    requires i < |w.actors| && w.actors[i].kind.Citizen? && w.actors[i].alive
    requires Aged(w.actors[i].kind).infection > InfectionLimit
    ensures var r := CitizenTick(src, w, i);
      && |r.actors| == |w.actors| + 1
      && !r.actors[i].alive && r.score == w.score - 1000 && r.citizens == w.citizens - 1
      && r.actors[|w.actors|].kind.Zombie? && r.actors[|w.actors|].pos == w.actors[i].pos
  {
  }

  /** A live citizen whose count stays within 500 stays a live citizen, the
      list keeps its length and every other actor is unchanged; on an even
      tick of its life it does not move and draws nothing. */
  lemma CitizenTickStays(src: Source, w: World, i: nat)
    requires i < |w.actors| && w.actors[i].kind.Citizen? && w.actors[i].alive
    requires Aged(w.actors[i].kind).infection <= InfectionLimit
    ensures var r := CitizenTick(src, w, i);
      && r.actors[i].alive && |r.actors| == |w.actors| && r.score == w.score && r.citizens == w.citizens
      && (forall j | 0 <= j < |w.actors| && j != i :: r.actors[j] == w.actors[j])
    ensures var r := CitizenTick(src, w, i);
      Aged(w.actors[i].kind).timeAlive % 2 == 0 ==> r.actors[i].pos == w.actors[i].pos && r.rolls == w.rolls
  {
  }

  /** On an odd tick of its life a live citizen that does not turn ages,
      announces its first tick of infection, and then moves as CitizenMoves
      says in the world so far. */
  lemma CitizenTickMovesOnOddTicks(src: Source, w: World, i: nat)
    requires i < |w.actors| && w.actors[i].kind.Citizen? && w.actors[i].alive
    requires Aged(w.actors[i].kind).infection <= InfectionLimit
    requires Aged(w.actors[i].kind).timeAlive % 2 == 1
    ensures var me, k := w.actors[i], Aged(w.actors[i].kind);
      var w2 := SetActor(w, i, me.(kind := k)).(sounds := w.sounds + (if k.infection == 1 then [CitizenInfected] else []));
      CitizenTick(src, w, i) == CitizenMoves(src, w2, i)
  {
    var me, k := w.actors[i], Aged(w.actors[i].kind);
    assert k.timeAlive % 2 != 0;
  }

  /** A citizen with neither Penelope nor any zombie within 80 pixels stays
      where it is and draws nothing. */
  lemma CitizenMovesIdleOutOfSight(src: Source, w: World, i: nat)
    requires i < |w.actors|
    requires forall j | 0 <= j < |w.actors| && Has(w.actors[j], TriggersCitizens) ::
               Sq(SightRadius) <= Dist2(w.actors[j].pos, w.actors[i].pos)
    ensures CitizenMoves(src, w, i) == w
  {
    var me := w.actors[i];
    NothingNearInSight(w.actors, me.pos, TriggersCitizens, me.pos);
    NothingNearInSight(w.actors, me.pos, ThreatensCitizens, me.pos);
  }

  /** When every actor with `cap` is at least 80 pixels from `p`, so is what
      the search for the nearest one reports. */
  lemma NothingNearInSight(s: seq<Actor>, p: Pos, cap: Capability, unset: Pos)
    requires forall j | 0 <= j < |s| && Has(s[j], cap) :: Sq(SightRadius) <= Dist2(s[j].pos, p)
    ensures Sq(SightRadius) <= Nearest(s, p, cap, unset).dist2
  {
    var r := Nearest(s, p, cap, unset);
    NearestSpec(s, p, cap, unset);
    if r.dist2 < Unseen2 {
      var j :| EarliestNearest(s, p, cap, j) && r.dist2 == Dist2(s[j].pos, p);
    }
  }

  /** When Penelope, at the front of the list, is strictly nearer than every
      zombie and within 80 pixels, and the first-choice step toward her is
      free, the citizen takes a 2-pixel step in a direction toward her. */
  lemma CitizenFollowsPenelope(src: Source, w: World, i: nat)
    requires i < |w.actors| && w.actors[0].kind.Penelope?
    requires w.actors[i].pos != w.actors[0].pos
    requires Dist2(w.actors[0].pos, w.actors[i].pos) < Sq(SightRadius)
    requires forall j | 0 < j < |w.actors| && Has(w.actors[j], TriggersCitizens) ::
               Dist2(w.actors[0].pos, w.actors[i].pos) < Dist2(w.actors[j].pos, w.actors[i].pos)
    requires var me := w.actors[i];
      !MovementBlocked(w.actors, i, Shift(me.pos, FindDirectionTo(src, w, me.pos, w.actors[0].pos).0.primary, CitizenStep))
    ensures var me, r := w.actors[i], CitizenMoves(src, w, i);
      exists d: Dir :: Toward(me.pos, w.actors[0].pos, d) && r.actors[i].pos == Shift(me.pos, d, CitizenStep)
  {
    var me := w.actors[i];
    PenelopeNearestIsNoThreat(w.actors, me.pos, me.pos);
    NearestSpec(w.actors, me.pos, TriggersCitizens, me.pos);
    var (trig, isThreat) := NearestCitizenTrigger(w.actors, me.pos, me.pos);
    assert trig.found && !isThreat && trig.pos == w.actors[0].pos && trig.dist2 < Sq(SightRadius);
    var (moved, w1) := MoveTowards(src, w, i, trig.pos);
    assert moved;
  }

  /** When a zombie is strictly nearer than every other trigger, within 80
      pixels and not on Penelope's position, the citizen flees it as
      MoveAwayFrom says. */
  lemma CitizenFleesNearestZombie(src: Source, w: World, i: nat, z: nat)
    requires i < |w.actors| && z < |w.actors| && w.actors[0].kind.Penelope? && Has(w.actors[z], ThreatensCitizens)
    requires Dist2(w.actors[z].pos, w.actors[i].pos) < Sq(SightRadius) && w.actors[z].pos != w.actors[0].pos
    requires forall j | 0 <= j < |w.actors| && j != z && Has(w.actors[j], TriggersCitizens) ::
               Dist2(w.actors[z].pos, w.actors[i].pos) < Dist2(w.actors[j].pos, w.actors[i].pos)
    ensures CitizenMoves(src, w, i) == MoveAwayFrom(w, i, w.actors[z].pos)
  {
    var me := w.actors[i];
    TriggerThreatReport(w.actors, me.pos, me.pos, z);
    NearestSpec(w.actors, me.pos, TriggersCitizens, me.pos);
    var (trig, isThreat) := NearestCitizenTrigger(w.actors, me.pos, me.pos);
    assert trig.found && isThreat && trig.pos == w.actors[z].pos && trig.dist2 < Sq(SightRadius);
  }
}
