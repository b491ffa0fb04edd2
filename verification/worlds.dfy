/** The world state: the ordered actor list with Penelope in front, the
    per-level bookkeeping, and the services every behaviour uses to change
    it (replace an actor, append one, request a sound, change the score).

    Score and lives are plain integer fields; sound requests are recorded in
    an event log; the random number generator is a `Source` of raw numbers
    read at the cursor `rolls`. */
module Worlds {
  import opened Geometry
  import opened Actors

  datatype Sound =
    | PlayerFire | PlayerDie
    | CitizenInfected | CitizenDie | CitizenSaved
    | ZombieBorn | ZombieDie | ZombieVomit
    | GotGoodie | LandmineExplode | LevelFinished

  datatype World = World(
    actors: seq<Actor>,
    citizens: int,
    finished: bool,
    level: int,
    score: int,
    lives: int,
    sounds: seq<Sound>,
    rolls: nat)

  /** The first actor of the list is always Penelope. */
  predicate WellFormed(w: World) {
    |w.actors| > 0 && w.actors[0].kind.Penelope?
  }

  // ---------------------------------------------------------------------
  // Randomness

  /** Raw random numbers, indexed by how many draws came before. */
  type Source = nat -> nat

  /** One uniform draw in [lo, hi], advancing the cursor. */
  function Roll(src: Source, w: World, lo: int, hi: int): (r: (int, World))
    requires lo <= hi
    ensures lo <= r.0 <= hi
    ensures r.1 == w.(rolls := w.rolls + 1)
  {
    (lo + src(w.rolls) % (hi - lo + 1), w.(rolls := w.rolls + 1))
  }

  /** Every value in range is the outcome of some source, so passing the
      source in excludes no behaviour of the game's generator. */
  lemma RollCoversRange(w: World, lo: int, hi: int, v: int)
    requires lo <= v <= hi
    ensures Roll((n: nat) => (v - lo) as nat, w, lo, hi).0 == v
  {
  }

  // ---------------------------------------------------------------------
  // Services

  function SetActor(w: World, i: nat, a: Actor): World
    requires i < |w.actors|
  {
    w.(actors := w.actors[i := a])
  }

  /** StudentWorld::addActor: append at the back of the list. */
  function Spawn(w: World, a: Actor): World {
    w.(actors := w.actors + [a])
  }

  function Play(w: World, s: Sound): World {
    w.(sounds := w.sounds + [s])
  }

  function AddScore(w: World, n: int): World {
    w.(score := w.score + n)
  }

  /** Actor::setDead on slot i. */
  function SetDead(w: World, i: nat): World
    requires i < |w.actors|
  {
    SetActor(w, i, w.actors[i].(alive := false))
  }

  // ---------------------------------------------------------------------
  // How the list may change

  /** `b` is a later state of the actor `a`: it is of the same class, and if
      `a` was already dead, `b` is dead at the same place, facing the same
      way, with the same tick counters. */
  predicate Succeeds(a: Actor, b: Actor) {
    && ClassOf(b.kind) == ClassOf(a.kind)
    && (!a.alive ==> !b.alive && b.pos == a.pos && b.dir == a.dir && Clocks(b.kind) == Clocks(a.kind))
  }

  /** `t` is a later state of the list `s`: nothing is removed or reordered,
      actors keep their class, and liveness only goes from alive to dead. */
  predicate Evolves(s: seq<Actor>, t: seq<Actor>) {
    |s| <= |t| && forall k | 0 <= k < |s| :: Succeeds(s[k], t[k])
  }

  /** Nobody in `s` moved or turned. */
  predicate Still(s: seq<Actor>, t: seq<Actor>) {
    |s| <= |t| && forall k | 0 <= k < |s| :: t[k].pos == s[k].pos && t[k].dir == s[k].dir
  }

  /** `r` is a later state of `w` within one tick: the list evolves, the level
      number stays, the citizen count never grows, a finished level stays
      finished, draws are only consumed and sounds only appended. */
  predicate Progresses(w: World, r: World) {
    && Evolves(w.actors, r.actors)
    && r.level == w.level
    && r.citizens <= w.citizens
    && (w.finished ==> r.finished)
    && r.rolls >= w.rolls
    && |w.sounds| <= |r.sounds| && r.sounds[..|w.sounds|] == w.sounds
  }

  lemma ProgressesTransitive(u: World, v: World, w: World)
    requires Progresses(u, v) && Progresses(v, w)
    ensures Progresses(u, w)
  {
    assert w.sounds[..|u.sounds|] == w.sounds[..|v.sounds|][..|u.sounds|];
  }

  /** Rewriting, in a later state, an actor that was alive at the start by
      one of the same class keeps the later state a progression; if the
      rewrite keeps the start's position and heading, nobody has moved. */
  lemma RewriteLiveActor(w: World, v: World, i: nat, a: Actor)
    requires Progresses(w, v) && i < |w.actors| && w.actors[i].alive
    requires ClassOf(a.kind) == ClassOf(w.actors[i].kind)
    ensures Progresses(w, SetActor(v, i, a))
    ensures Still(w.actors, v.actors) && a.pos == w.actors[i].pos && a.dir == w.actors[i].dir ==>
              Still(w.actors, SetActor(v, i, a).actors)
  {
  }

  lemma EvolvesTransitive(s: seq<Actor>, t: seq<Actor>, u: seq<Actor>)
    requires Evolves(s, t) && Evolves(t, u)
    ensures Evolves(s, u)
  {
  }

  // ---------------------------------------------------------------------
  // Citizen and level bookkeeping

  /** StudentWorld::recordCitizenGone: one more citizen is gone (saved, dead or
      turned into a zombie). */
  function RecordCitizenGone(w: World): (r: World)
    ensures r.citizens == w.citizens - 1
    ensures r.(citizens := w.citizens) == w
  {
    w.(citizens := w.citizens - 1)
  }

  /** StudentWorld::recordLevelFinishedIfAllCitizensGone: the level is marked
      finished exactly when no citizen remains; otherwise nothing changes. */
  function RecordLevelFinishedIfAllCitizensGone(w: World): (r: World)
    ensures w.citizens == 0 ==> r.finished
    ensures w.citizens != 0 ==> r == w
    ensures r.(finished := w.finished) == w
  {
    if w.citizens == 0 then w.(finished := true) else w
  }

  /** Number of citizens in a list of actors. */
  function CitizenCount(s: seq<Actor>): nat {
    if |s| == 0 then 0 else (if s[0].kind.Citizen? then 1 else 0) + CitizenCount(s[1..])
  }

  /** A level as the loader leaves it: Penelope in front, the citizen count
      set to the number of citizens placed, the finished flag cleared.
      Score, lives and the level number carry over from `w`. */
  function StartLevel(w: World, player: Actor, others: seq<Actor>): (r: World)
    requires player.kind.Penelope?
    ensures WellFormed(r)
    ensures r.actors[0] == player && r.actors[1..] == others
    ensures r.citizens == CitizenCount(others) && !r.finished
    ensures r.level == w.level && r.score == w.score && r.lives == w.lives
  {
    w.(actors := [player] + others, citizens := CitizenCount(others), finished := false)
  }

  /** A world as constructed: level 1, no citizens counted yet. */
  function NewWorld(lives: int): (w: World)
    ensures w.level == 1 && w.citizens == 0 && w.actors == []
  {
    World([], 0, false, 1, 0, lives, [], 0)
  }

  // ---------------------------------------------------------------------
  // The dead-actor sweep

  /** The live actors of `s`, in order. */
  function LiveOnly(s: seq<Actor>): seq<Actor> {
    if |s| == 0 then [] else (if s[0].alive then [s[0]] else []) + LiveOnly(s[1..])
  }

  /** `r` is `s` with some elements left out, order kept. */
  predicate IsSubsequence(r: seq<Actor>, s: seq<Actor>)
    decreases |s|
  {
    if |r| == 0 then true
    else if |s| == 0 then false
    else (r[0] == s[0] && IsSubsequence(r[1..], s[1..])) || IsSubsequence(r, s[1..])
  }

  /** StudentWorld::removeDeadActors.  The loop erases a dead actor, which
      leaves the iterator on the next element, and then advances the iterator
      again: the element right after an erased one is never examined. */
  function Sweep(s: seq<Actor>): (r: seq<Actor>)
    ensures LiveOnly(r) == LiveOnly(s)
    ensures IsSubsequence(r, s)
    decreases |s|
  {
    if |s| == 0 then []
    else if s[0].alive then
      var rest := Sweep(s[1..]);
      assert ([s[0]] + rest)[1..] == rest;
      [s[0]] + rest
    else if |s| == 1 then []
    else
      var rest := Sweep(s[2..]);
      assert ([s[1]] + rest)[1..] == rest;
      assert s[1..][1..] == s[2..];
      assert IsSubsequence([s[1]] + rest, s[1..]);
      [s[1]] + rest
  }

  /** No two dead actors are next to each other. */
  predicate NoAdjacentDead(s: seq<Actor>) {
    forall k | 0 <= k < |s| - 1 :: s[k].alive || s[k + 1].alive
  }

  /** When no two dead actors are adjacent, the sweep removes every dead one. */
  lemma {:induction false} SweepRemovesIsolatedDead(s: seq<Actor>)
    requires NoAdjacentDead(s)
    ensures Sweep(s) == LiveOnly(s)
    decreases |s|
  {
    if |s| == 0 {
    } else if s[0].alive {
      assert NoAdjacentDead(s[1..]);
      SweepRemovesIsolatedDead(s[1..]);
    } else if |s| == 1 {
    } else {
      assert s[1].alive;
      assert NoAdjacentDead(s[2..]);
      SweepRemovesIsolatedDead(s[2..]);
      assert s[1..][1..] == s[2..];
    }
  }

  /** Two dead actors in a row: only the first is removed. */
  lemma SweepMayKeepDead(a: Actor, b: Actor)
    requires !a.alive && !b.alive
    ensures Sweep([a, b]) == [b]
  {
    assert [a, b][2..] == [];
  }

  /** A live front actor stays in front. */
  lemma SweepKeepsLiveFront(s: seq<Actor>)
    requires |s| > 0 && s[0].alive
    ensures |Sweep(s)| > 0 && Sweep(s)[0] == s[0]
  {
  }
}
