/** Penelope's per-tick behaviour: the infection clock, then at most one
    key press (move, fire, drop a landmine, use a vaccine). */
module Player {
  import opened Geometry
  import opened Actors
  import opened Options
  import opened Worlds
  import opened Queries
  import opened Agents
  import opened Activation

  /** The keys Penelope reacts to; every other key is `OtherKey`.  No key
      pressed this tick is `None`. */
  datatype Key = MoveKey(d: Dir) | FireKey | MineKey | VaccineKey | OtherKey

  /** Penelope::move: she faces `d` whether or not the 4-pixel step succeeds. */
  function PlayerMove(w: World, i: nat, d: Dir): (r: World)
    requires i < |w.actors|
    ensures |r.actors| == |w.actors| && r.(actors := w.actors) == w
    ensures r.actors[i] == w.actors[i].(dir := d, pos := r.actors[i].pos)
    ensures forall k | 0 <= k < |w.actors| && k != i :: r.actors[k] == w.actors[k]
    ensures r.actors[i].pos == w.actors[i].pos
            || (r.actors[i].pos == Shift(w.actors[i].pos, d, 4) && !MovementBlocked(w.actors, i, Shift(w.actors[i].pos, d, 4)))
    ensures !MovementBlocked(w.actors, i, Shift(w.actors[i].pos, d, 4)) ==> r.actors[i].pos == Shift(w.actors[i].pos, d, 4)
  {
    var w1 := SetActor(w, i, w.actors[i].(dir := d));
    TryMove(w1, i, d, 4).1
  }

  /** `m` flames facing `d`, on the cells n, n+1, ... ahead of `origin`. */
  function FlameRow(origin: Pos, d: Dir, n: nat, m: nat): (r: seq<Actor>)
    ensures |r| == m
    decreases m
  {
    if m == 0 then [] else [NewFlame(Shift(origin, d, SpriteWidth * n), d)] + FlameRow(origin, d, n + 1, m - 1)
  }

  /** The flame loop of Penelope::createFlame from the n-th cell on: flames go
      one cell apart along `d` from `origin`, and the loop stops at the first
      cell whose first covering actor, in the list with the flames laid so
      far, blocks flames.  The answer's first part is the cell where the loop
      stopped, 4 if it ran to the end. */
  function FlameLine(s: seq<Actor>, origin: Pos, d: Dir, n: nat): (r: (nat, seq<Actor>))
    requires 1 <= n <= 4
    ensures n <= r.0 <= 4
    ensures r.1 == s + FlameRow(origin, d, n, r.0 - n)
    ensures r.0 == FirstFlameBlock(s, origin, d, n)
    decreases 4 - n
  {
    if n == 4 then (4, s)
    else
      var p := Shift(origin, d, SpriteWidth * n);
      if FlameBlocked(s, p) then (n, s)
      else
        var r := FlameLine(s + [NewFlame(p, d)], origin, d, n + 1);
        FirstFlameBlockIgnoresFlame(s, p, origin, d, n + 1);
        assert r.0 == FirstFlameBlock(s, origin, d, n);
        FlameRowJoin(s, origin, d, n, r.0 - n);
        r
  }

  /** Laying the flame of cell n and then the row from cell n + 1 lays the
      row from cell n. */
  lemma FlameRowJoin(s: seq<Actor>, origin: Pos, d: Dir, n: nat, m: nat)
    requires m > 0
    ensures (s + [NewFlame(Shift(origin, d, SpriteWidth * n), d)]) + FlameRow(origin, d, n + 1, m - 1) == s + FlameRow(origin, d, n, m)
  {
    var f := NewFlame(Shift(origin, d, SpriteWidth * n), d);
    assert FlameRow(origin, d, n, m) == [f] + FlameRow(origin, d, n + 1, m - 1);
    assert (s + [f]) + FlameRow(origin, d, n + 1, m - 1) == s + ([f] + FlameRow(origin, d, n + 1, m - 1));
  }

  /** Reference for where the flame loop stops, read off the list as it was
      before the loop: the first cell from n on whose first covering actor
      blocks flames, 4 if there is none up to the third cell. */
  function FirstFlameBlock(s: seq<Actor>, origin: Pos, d: Dir, n: nat): (r: nat)
    requires 1 <= n <= 4
    ensures n <= r <= 4
    decreases 4 - n
  {
    if n == 4 || FlameBlocked(s, Shift(origin, d, SpriteWidth * n)) then n
    else FirstFlameBlock(s, origin, d, n + 1)
  }

  /** The reference stop is the first blocked cell: every cell from n before
      it is free, and it blocks unless it is past the third cell. */
  lemma {:induction false} FirstFlameBlockIsFirst(s: seq<Actor>, origin: Pos, d: Dir, n: nat, k: nat)
    requires 1 <= n <= k < 4
    ensures k < FirstFlameBlock(s, origin, d, n) ==> !FlameBlocked(s, Shift(origin, d, SpriteWidth * k))
    ensures k == FirstFlameBlock(s, origin, d, n) ==> FlameBlocked(s, Shift(origin, d, SpriteWidth * k))
    decreases 4 - n
  {
    if k > n && !FlameBlocked(s, Shift(origin, d, SpriteWidth * n)) {
      FirstFlameBlockIsFirst(s, origin, d, n + 1, k);
    }
  }

  /** Actors that do not block flames, appended to the list, leave the
      reference stop where it was. */
  lemma {:induction false} FirstFlameBlockIgnoresAppended(s: seq<Actor>, t: seq<Actor>, origin: Pos, d: Dir, n: nat)
    requires 1 <= n <= 4
    requires forall k | 0 <= k < |t| :: !Has(t[k], BlocksFlame)
    ensures FirstFlameBlock(s + t, origin, d, n) == FirstFlameBlock(s, origin, d, n)
    decreases 4 - n
  {
    if n < 4 {
      FlameBlockedIgnoresAppended(s, t, Shift(origin, d, SpriteWidth * n));
      FirstFlameBlockIgnoresAppended(s, t, origin, d, n + 1);
    }
  }

  /** One more flame in the list leaves the reference stop where it was. */
  lemma FirstFlameBlockIgnoresFlame(s: seq<Actor>, q: Pos, origin: Pos, d: Dir, n: nat)
    requires 1 <= n <= 4
    ensures FirstFlameBlock(s + [NewFlame(q, d)], origin, d, n) == FirstFlameBlock(s, origin, d, n)
  {
    FirstFlameBlockIgnoresAppended(s, [NewFlame(q, d)], origin, d, n);
  }

  /** The reference stop reads positions and classes only. */
  lemma {:induction false} FirstFlameBlockSeesLayoutOnly(s: seq<Actor>, t: seq<Actor>, origin: Pos, d: Dir, n: nat)
    requires 1 <= n <= 4 && SameLayout(s, t)
    ensures FirstFlameBlock(t, origin, d, n) == FirstFlameBlock(s, origin, d, n)
    decreases 4 - n
  {
    if n < 4 {
      PointQueriesSeeLayoutOnly(s, t, Shift(origin, d, SpriteWidth * n));
      FirstFlameBlockSeesLayoutOnly(s, t, origin, d, n + 1);
    }
  }

  /** Penelope's inventory with one flame charge spent. */
  function SpendCharge(k: Kind): (r: Kind)
    requires k.Penelope? && k.flameCharges > 0
    ensures r.Penelope? && r.flameCharges == k.flameCharges - 1
    ensures r.infected == k.infected && r.infection == k.infection && r.vaccines == k.vaccines && r.landmines == k.landmines
  {
    Penelope(k.infected, k.infection, k.vaccines, k.flameCharges - 1, k.landmines)
  }

  /** Penelope::createFlame: with a charge, spend it and lay up to three
      flames ahead in her facing direction; the fire sound is requested only
      if all three were laid.  What is laid is stated by CreateFlameLays. */
  function CreateFlame(w: World, i: nat): (r: World)
    requires i < |w.actors| && w.actors[i].kind.Penelope?
    ensures Progresses(w, r)
    ensures w.actors[i].kind.flameCharges == 0 ==> r == w
    ensures r.(actors := w.actors, sounds := w.sounds) == w
  {
    var me := w.actors[i];
    if me.kind.flameCharges == 0 then w
    else
      var w1 := SetActor(w, i, me.(kind := SpendCharge(me.kind)));
      var (stop, laid) := FlameLine(w1.actors, me.pos, me.dir, 1);
      var w2 := w1.(actors := laid);
      if stop == 4 then Play(w2, PlayerFire) else w2
  }

  /** A fire with a charge in hand spends it and lays m of the three flames
      ahead, where cell m + 1 is the first cell, in the list as it stood,
      whose first covering actor blocks flames (4 if none does): the cells
      before it are free, and it blocks.  All three flames come with the
      fire sound. */
  lemma CreateFlameLays(w: World, i: nat)
    requires i < |w.actors| && w.actors[i].kind.Penelope? && w.actors[i].kind.flameCharges > 0
    ensures var me := w.actors[i];
      var r := CreateFlame(w, i);
      var m := |r.actors| - |w.actors|;
      && 0 <= m <= 3
      && m + 1 == FirstFlameBlock(w.actors, me.pos, me.dir, 1)
      && r.actors == w.actors[i := me.(kind := SpendCharge(me.kind))] + FlameRow(me.pos, me.dir, 1, m)
      && r.sounds == w.sounds + (if m == 3 then [PlayerFire] else [])
  {
    var me := w.actors[i];
    var w1 := SetActor(w, i, me.(kind := SpendCharge(me.kind)));
    var (stop, laid) := FlameLine(w1.actors, me.pos, me.dir, 1);
    FirstFlameBlockSeesLayoutOnly(w.actors, w1.actors, me.pos, me.dir, 1);
    var w2 := w1.(actors := laid);
    var r := if stop == 4 then Play(w2, PlayerFire) else w2;
    assert CreateFlame(w, i) == r;
    assert |r.actors| - |w.actors| == stop - 1;
  }

  /** The flames a fire lays go exactly up to the first cell that blocks
      flames: every cell it lays a flame on was free, in the list as it
      stood, and fewer than three flames means the next cell blocks. */
  lemma CreateFlameStopsAtFirstBlock(w: World, i: nat)
    requires i < |w.actors| && w.actors[i].kind.Penelope? && w.actors[i].kind.flameCharges > 0
    ensures var me := w.actors[i];
      var m := |CreateFlame(w, i).actors| - |w.actors|;
      && (forall k | 1 <= k <= m :: !FlameBlocked(w.actors, Shift(me.pos, me.dir, SpriteWidth * k)))
      && (m < 3 ==> FlameBlocked(w.actors, Shift(me.pos, me.dir, SpriteWidth * (m + 1))))
  {
    var me := w.actors[i];
    CreateFlameLays(w, i);
    forall k | 1 <= k <= 3 {
      FirstFlameBlockIsFirst(w.actors, me.pos, me.dir, 1, k);
    }
  }

  /** Penelope::useVaccine: with a vaccine, spend it and clear the infection. */
  function UseVaccine(w: World, i: nat): (r: World)
    requires i < |w.actors| && w.actors[i].kind.Penelope?
    ensures var k := w.actors[i].kind;
      k.vaccines == 0 ==> r == w
    ensures var k := w.actors[i].kind;
      k.vaccines > 0 ==> r == SetActor(w, i, w.actors[i].(kind := Penelope(false, 0, k.vaccines - 1, k.flameCharges, k.landmines)))
  {
    var me := w.actors[i];
    var k := me.kind;
    if k.vaccines == 0 then w
    else SetActor(w, i, me.(kind := Penelope(false, 0, k.vaccines - 1, k.flameCharges, k.landmines)))
  }

  /** Penelope::setMine: with a landmine, spend it and put a new one, still
      safe, where she stands. */
  function SetMine(w: World, i: nat): (r: World)
    requires i < |w.actors| && w.actors[i].kind.Penelope?
    ensures var k := w.actors[i].kind;
      k.landmines == 0 ==> r == w
    ensures var k := w.actors[i].kind;
      k.landmines > 0 ==>
        r.actors == w.actors[i := w.actors[i].(kind := k.(landmines := k.landmines - 1))] + [NewLandmine(w.actors[i].pos)]
    ensures r.(actors := w.actors) == w
  {
    var me := w.actors[i];
    if me.kind.landmines == 0 then w
    else Spawn(SetActor(w, i, me.(kind := me.kind.(landmines := me.kind.landmines - 1))), NewLandmine(me.pos))
  }

  /** The key switch of Penelope::doSomething: a direction key moves her, the
      space bar fires, tab drops a landmine, enter uses a vaccine, and any
      other key, or none, does nothing.  It is reached for a live Penelope
      only.  Only the actor list and the sound
      log can change, and she stays Penelope with a consistent infection. */
  function ActOnKey(w: World, i: nat, key: Option<Key>): (r: World)
    requires i < |w.actors| && w.actors[i].kind.Penelope? && w.actors[i].alive
    ensures Progresses(w, r)
    ensures r.(actors := w.actors, sounds := w.sounds) == w
    ensures r.actors[i].kind.Penelope?
    ensures key.None? || key == Some(OtherKey) ==> r == w
    ensures key.Some? && key.value.MoveKey? ==> r == PlayerMove(w, i, key.value.d)
    ensures key == Some(FireKey) ==> r == CreateFlame(w, i)
    ensures key == Some(MineKey) ==> r == SetMine(w, i)
    ensures key == Some(VaccineKey) ==> r == UseVaccine(w, i)
    ensures InfectionConsistent(w.actors[i].kind) ==> InfectionConsistent(r.actors[i].kind)
  {
    match key
    case None => w
    case Some(MoveKey(d)) => PlayerMove(w, i, d)
    case Some(FireKey) => CreateFlame(w, i)
    case Some(MineKey) => SetMine(w, i)
    case Some(VaccineKey) => UseVaccine(w, i)
    case Some(OtherKey) => w
  }

  /** Penelope::doSomething for the Penelope in slot i, given the key pressed
      this tick, if any.  A dead Penelope does nothing.  An infected one
      counts up, and past 500 she dies instead of acting on the key. */
  function PlayerStep(w: World, i: nat, key: Option<Key>): (r: World)
    requires i < |w.actors| && w.actors[i].kind.Penelope?
    ensures Progresses(w, r)
    ensures r.actors[i].kind.Penelope?
    ensures !w.actors[i].alive ==> r == w
    ensures var k := w.actors[i].kind;
      w.actors[i].alive && k.infected && k.infection >= InfectionLimit ==>
        !r.actors[i].alive && r.lives == w.lives - 1 && |r.actors| == |w.actors|
    ensures w.actors[i].alive && !w.actors[i].kind.infected && w.actors[i].kind.infection <= InfectionLimit && key.None? ==> r == w
    ensures InfectionConsistent(w.actors[i].kind) ==> InfectionConsistent(r.actors[i].kind)
    ensures r.score == w.score && r.citizens == w.citizens && r.rolls == w.rolls && r.finished == w.finished
    ensures var me := w.actors[i];
      var k1 := Incubate(me.kind);
      me.alive && k1.infection <= InfectionLimit ==> r == ActOnKey(SetActor(w, i, me.(kind := k1)), i, key)
  {
    var me := w.actors[i];
    if !me.alive then w
    else
      var k1 := Incubate(me.kind);
      var w1 := SetActor(w, i, me.(kind := k1));
      if k1.infection > InfectionLimit then KillPlayer(w1, i)
      else ActOnKey(w1, i, key)
  }

  // ---------------------------------------------------------------------
  // Properties

  /** An uninfected live Penelope who presses a direction key makes exactly
      the move that key asks for, whatever else is in the world. */
  lemma ArrowKeyMoves(w: World, i: nat, d: Dir)
    requires i < |w.actors| && w.actors[i].kind.Penelope? && w.actors[i].alive
    requires !w.actors[i].kind.infected && w.actors[i].kind.infection <= InfectionLimit
    ensures PlayerStep(w, i, Some(MoveKey(d))) == PlayerMove(w, i, d)
  {
    var me := w.actors[i];
    assert Incubate(me.kind) == me.kind;
    assert w.actors[i := me] == w.actors;
    assert SetActor(w, i, me.(kind := Incubate(me.kind))) == w;
  }

  /** Firing with three free cells ahead lays exactly three flames, facing
      her way, and requests the fire sound. */
  lemma {:induction false} FireIntoOpenSpace(w: World, i: nat)
    requires i < |w.actors| && w.actors[i].kind.Penelope? && w.actors[i].kind.flameCharges > 0
    requires forall k, n | 0 <= k < |w.actors| && 1 <= n <= 3 ::
               !SpriteOverlap(w.actors[k].pos, Shift(w.actors[i].pos, w.actors[i].dir, SpriteWidth * n))
    ensures |CreateFlame(w, i).actors| == |w.actors| + 3
    ensures CreateFlame(w, i).sounds == w.sounds + [PlayerFire]
  {
    var me := w.actors[i];
    var w1 := SetActor(w, i, me.(kind := SpendCharge(me.kind)));
    var p := me.pos;
    var d := me.dir;
    var q1, q2, q3 := Shift(p, d, 16), Shift(p, d, 32), Shift(p, d, 48);
    // Flames one and two cells ahead never cover the cells further on.
    ShiftApart(p, d, 1, 2);
    ShiftApart(p, d, 1, 3);
    ShiftApart(p, d, 2, 3);
    assert !FlameBlocked(w1.actors, q1);
    var w2 := Spawn(w1, NewFlame(q1, d));
    assert !FlameBlocked(w2.actors, q2);
    var w3 := Spawn(w2, NewFlame(q2, d));
    assert !FlameBlocked(w3.actors, q3);
    assert FlameLine(w1.actors, p, d, 1) == FlameLine(w2.actors, p, d, 2);
    assert FlameLine(w2.actors, p, d, 2) == FlameLine(w3.actors, p, d, 3);
    assert FlameLine(w3.actors, p, d, 3).0 == 4;
  }

  /** Two points whole cells apart along one direction do not overlap. */
  lemma ShiftApart(p: Pos, d: Dir, m: int, n: int)
    requires m < n
    ensures !SpriteOverlap(Shift(p, d, SpriteWidth * m), Shift(p, d, SpriteWidth * n))
  {
  }

  /** A fire blocked at the first cell spends the charge but lays nothing and
      stays silent. */
  lemma FireIntoWall(w: World, i: nat)
    requires i < |w.actors| && w.actors[i].kind.Penelope? && w.actors[i].kind.flameCharges > 0
    requires FlameBlocked(w.actors, Shift(w.actors[i].pos, w.actors[i].dir, SpriteWidth))
    ensures |CreateFlame(w, i).actors| == |w.actors|
    ensures CreateFlame(w, i).sounds == w.sounds
    ensures CreateFlame(w, i).actors[i].kind.flameCharges == w.actors[i].kind.flameCharges - 1
  {
    var me := w.actors[i];
    var w1 := SetActor(w, i, me.(kind := SpendCharge(me.kind)));
    PointQueriesSeeLayoutOnly(w.actors, w1.actors, Shift(me.pos, me.dir, SpriteWidth));
  }

  /** A live, infected Penelope with the counter at 500 dies this tick, and
      the key pressed has no effect. */
  lemma InfectionRunsOut(w: World, i: nat, key: Option<Key>)
    requires i < |w.actors| && w.actors[i].alive
    requires w.actors[i].kind.Penelope? && w.actors[i].kind.infected && w.actors[i].kind.infection == InfectionLimit
    ensures PlayerStep(w, i, key) == PlayerStep(w, i, None)
    ensures PlayerStep(w, i, key).sounds == w.sounds + [PlayerDie]
  {
  }

  /** A vaccine cures: afterwards she is uninfected with a zero counter, and
      the next step leaves the counter at zero. */
  lemma VaccineCures(w: World, i: nat)
    requires i < |w.actors| && w.actors[i].alive
    requires w.actors[i].kind.Penelope? && w.actors[i].kind.vaccines > 0
    requires w.actors[i].kind.infection < InfectionLimit
    ensures var r := PlayerStep(w, i, Some(VaccineKey));
      && !r.actors[i].kind.infected && r.actors[i].kind.infection == 0
      && r.actors[i].kind.vaccines == w.actors[i].kind.vaccines - 1
      && PlayerStep(r, i, None).actors[i].kind.infection == 0
  {
  }
}
