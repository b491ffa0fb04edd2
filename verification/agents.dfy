/** What the Agent base class gives Penelope, citizens and zombies: an
    all-or-nothing move that consults the world's blocking query, and the
    choice of a direction toward a point. */
module Agents {
  import opened Geometry
  import opened Actors
  import opened Options
  import opened Worlds
  import opened Queries

  /** Agent::move with Agent::calculateNextMove: the agent in slot `i` tries to
      move `n` pixels along `d`.  If another movement-blocking actor covers the
      target, nothing changes and the answer is false; otherwise the agent
      faces `d` and stands on the target, and the answer is true. */
  function TryMove(w: World, i: nat, d: Dir, n: int): (r: (bool, World))
    requires i < |w.actors|
    ensures r.0 <==> !MovementBlocked(w.actors, i, Shift(w.actors[i].pos, d, n))
    ensures !r.0 ==> r.1 == w
    ensures r.0 ==> r.1.actors == w.actors[i := w.actors[i].(pos := Shift(w.actors[i].pos, d, n), dir := d)]
    ensures r.1.(actors := w.actors) == w
    ensures w.actors[i].alive ==> Evolves(w.actors, r.1.actors)
  {
    var me := w.actors[i];
    var target := Shift(me.pos, d, n);
    if MovementBlocked(w.actors, i, target) then (false, w)
    else (true, SetActor(w, i, me.(pos := target, dir := d)))
  }

  /** `r` is `w` after the agent in slot i took at most one step of `n`
      pixels: it may have moved and turned, nothing else in the list changed,
      and of the rest of the world only the draw cursor may have advanced. */
  predicate Relocated(w: World, r: World, i: nat, n: int)
    requires i < |w.actors|
  {
    && |r.actors| == |w.actors|
    && r.(actors := w.actors, rolls := w.rolls) == w && r.rolls >= w.rolls
    && (forall k | 0 <= k < |w.actors| && k != i :: r.actors[k] == w.actors[k])
    && r.actors[i] == w.actors[i].(pos := r.actors[i].pos, dir := r.actors[i].dir)
    && (r.actors[i].pos == w.actors[i].pos || exists d: Dir :: r.actors[i].pos == Shift(w.actors[i].pos, d, n))
  }

  /** A successful move displaces the agent by exactly `n` pixels along d's
      axis and leaves every other actor where it was. */
  lemma MoveDisplacement(w: World, i: nat, d: Dir, n: int)
    requires i < |w.actors|
    requires TryMove(w, i, d, n).0
    ensures var a := TryMove(w, i, d, n).1.actors;
      && |a| == |w.actors|
      && Dist2(w.actors[i].pos, a[i].pos) == Sq(n)
      && (Vertical(d) ==> a[i].pos.x == w.actors[i].pos.x)
      && (!Vertical(d) ==> a[i].pos.y == w.actors[i].pos.y)
      && forall k :: 0 <= k < |a| && k != i ==> a[k] == w.actors[k]
  {
    ShiftDistance(w.actors[i].pos, d, n);
  }

  /** A primary direction toward a point and, when the point is off both
      axes, the other axis's direction as a fallback. */
  datatype Heading = Heading(primary: Dir, fallback: Option<Dir>)

  /** The geometry of Agent::findDirectionTo, with its draw in [0,1] given as
      `coin` (0 makes the vertical direction the primary one). */
  function HeadingTo(from: Pos, to: Pos, coin: int): (h: Heading)
    requires 0 <= coin <= 1
    ensures h.fallback.None? <==> from.x == to.x || from.y == to.y
    ensures from != to ==> Toward(from, to, h.primary)
    ensures h.fallback.Some? ==> Toward(from, to, h.fallback.value)
    ensures h.fallback.Some? ==> Vertical(h.primary) != Vertical(h.fallback.value)
    ensures h.fallback.Some? ==> (Vertical(h.primary) <==> coin == 0)
  {
    var xDiff := from.x - to.x;
    var yDiff := from.y - to.y;
    if xDiff == 0 then Heading(if yDiff > 0 then Down else Up, None)
    else if yDiff == 0 then Heading(if xDiff > 0 then Left else Right, None)
    else
      var options := [if yDiff > 0 then Down else Up, if xDiff > 0 then Left else Right];
      Heading(options[coin], Some(options[1 - coin]))
  }

  /** Agent::findDirectionTo: a draw is made only when the point is off both
      axes. */
  function FindDirectionTo(src: Source, w: World, from: Pos, to: Pos): (r: (Heading, World))
    ensures r.1 == w.(rolls := w.rolls + (if from.x != to.x && from.y != to.y then 1 else 0))
    ensures r.0.fallback.None? <==> from.x == to.x || from.y == to.y
    ensures from != to ==> Toward(from, to, r.0.primary)
    ensures r.0.fallback.Some? ==> Toward(from, to, r.0.fallback.value)
  {
    if from.x == to.x || from.y == to.y then (HeadingTo(from, to, 0), w)
    else
      var (coin, w1) := Roll(src, w, 0, 1);
      (HeadingTo(from, to, coin), w1)
  }

  /** Either draw can make either axis the primary one. */
  lemma EitherAxisCanLead(from: Pos, to: Pos)
    requires from.x != to.x && from.y != to.y
    ensures Vertical(HeadingTo(from, to, 0).primary)
    ensures !Vertical(HeadingTo(from, to, 1).primary)
    ensures HeadingTo(from, to, 0).fallback == Some(HeadingTo(from, to, 1).primary)
  {
  }
}
