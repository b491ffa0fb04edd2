/** The world's spatial queries over the actor list.  Each is a scan of the
    list in order, as the game loops over it; none of them looks at liveness,
    so actors marked dead but not yet swept still block, cover points and
    are found by the nearest-actor searches. */
module Queries {
  import opened Geometry
  import opened Actors
  import opened Options

  // ---------------------------------------------------------------------
  // Movement blocking

  /** Actor `a` stops an agent from moving to `p`. */
  predicate BlocksAt(a: Actor, p: Pos) {
    Has(a, BlocksMovement) && SpriteOverlap(a.pos, p)
  }

  /** The loop of StudentWorld::isAgentMovementBlockedAt from slot k on. */
  function BlockedFrom(s: seq<Actor>, mover: nat, p: Pos, k: nat): (b: bool)
    requires k <= |s|
    ensures b <==> exists j :: k <= j < |s| && j != mover && BlocksAt(s[j], p)
    decreases |s| - k
  {
    if k == |s| then false
    else if k != mover && BlocksAt(s[k], p) then true
    else BlockedFrom(s, mover, p, k + 1)
  }

  /** Is the agent in slot `mover` blocked from moving to `p`?  True exactly
      when some other movement-blocking actor's sprite covers `p`. */
  function MovementBlocked(s: seq<Actor>, mover: nat, p: Pos): (b: bool)
    ensures b <==> exists j :: 0 <= j < |s| && j != mover && BlocksAt(s[j], p)
  {
    BlockedFrom(s, mover, p, 0)
  }

  // ---------------------------------------------------------------------
  // First hit

  /** The loop of StudentWorld::findActorAt from slot k on: the first actor
      whose sprite covers `p`. */
  function FirstAtFrom(s: seq<Actor>, p: Pos, k: nat): (r: Option<nat>)
    requires k <= |s|
    ensures r.Some? ==> k <= r.value < |s| && SpriteOverlap(s[r.value].pos, p)
    ensures r.Some? ==> forall j {:trigger SpriteOverlap(s[j].pos, p)} :: k <= j < r.value ==> !SpriteOverlap(s[j].pos, p)
    ensures r.None? <==> forall j {:trigger SpriteOverlap(s[j].pos, p)} :: k <= j < |s| ==> !SpriteOverlap(s[j].pos, p)
    decreases |s| - k
  {
    if k == |s| then None
    else if SpriteOverlap(s[k].pos, p) then Some(k)
    else FirstAtFrom(s, p, k + 1)
  }

  function FirstAt(s: seq<Actor>, p: Pos): (r: Option<nat>)
    ensures r.Some? ==> r.value < |s| && SpriteOverlap(s[r.value].pos, p)
    ensures r.Some? ==> forall j {:trigger SpriteOverlap(s[j].pos, p)} :: 0 <= j < r.value ==> !SpriteOverlap(s[j].pos, p)
    ensures r.None? <==> forall j {:trigger SpriteOverlap(s[j].pos, p)} :: 0 <= j < |s| ==> !SpriteOverlap(s[j].pos, p)
  {
    FirstAtFrom(s, p, 0)
  }

  /** StudentWorld::isVaccineCreationBlockedAt: any actor's sprite covers `p`. */
  function VaccineCreationBlocked(s: seq<Actor>, p: Pos): (b: bool)
    ensures b <==> exists j :: 0 <= j < |s| && SpriteOverlap(s[j].pos, p)
  {
    FirstAt(s, p).Some?
  }

  /** StudentWorld::isFlameBlockedAt: only the FIRST actor covering `p`, in list
      order, is asked whether it blocks flames. */
  predicate FlameBlocked(s: seq<Actor>, p: Pos) {
    match FirstAt(s, p)
    case None => false
    case Some(j) => Has(s[j], BlocksFlame)
  }

  /** A point blocks flames exactly when the first actor covering it is a
      wall or an exit; a flame-blocker behind another actor does not count. */
  lemma FlameBlockedMeans(s: seq<Actor>, p: Pos)
    ensures FlameBlocked(s, p) <==>
              exists j :: 0 <= j < |s| && SpriteOverlap(s[j].pos, p) && Has(s[j], BlocksFlame)
                          && forall i :: 0 <= i < j ==> !SpriteOverlap(s[i].pos, p)
  {
    if j :| 0 <= j < |s| && SpriteOverlap(s[j].pos, p) && Has(s[j], BlocksFlame)
            && forall i :: 0 <= i < j ==> !SpriteOverlap(s[i].pos, p) {
      assert FirstAt(s, p) == Some(j);
    }
  }

  /** Two lists with the same layout: the same classes at the same positions,
      slot by slot.  Every query of this module sees only the layout. */
  predicate SameLayout(s: seq<Actor>, t: seq<Actor>) {
    |s| == |t| && forall k | 0 <= k < |s| :: t[k].pos == s[k].pos && ClassOf(t[k].kind) == ClassOf(s[k].kind)
  }

  lemma {:induction false} FirstAtFromLayout(s: seq<Actor>, t: seq<Actor>, p: Pos, k: nat)
    requires SameLayout(s, t) && k <= |s|
    ensures FirstAtFrom(t, p, k) == FirstAtFrom(s, p, k)
    decreases |s| - k
  {
    if k < |s| {
      FirstAtFromLayout(s, t, p, k + 1);
    }
  }

  /** The point queries answer the same on lists with the same layout. */
  lemma PointQueriesSeeLayoutOnly(s: seq<Actor>, t: seq<Actor>, p: Pos)
    requires SameLayout(s, t)
    ensures FirstAt(t, p) == FirstAt(s, p)
    ensures FlameBlocked(t, p) == FlameBlocked(s, p)
    ensures VaccineCreationBlocked(t, p) == VaccineCreationBlocked(s, p)
  {
    FirstAtFromLayout(s, t, p, 0);
  }

  /** Actors that do not block flames, appended at the back of the list,
      never change whether a point blocks flames: the first actor covering it
      is still the one in the original list, if any. */
  lemma FlameBlockedIgnoresAppended(s: seq<Actor>, t: seq<Actor>, p: Pos)
    requires forall k | 0 <= k < |t| :: !Has(t[k], BlocksFlame)
    ensures FlameBlocked(s + t, p) == FlameBlocked(s, p)
  {
    var u := s + t;
    match FirstAt(s, p)
    case Some(j) =>
      assert u[j] == s[j];
      assert forall i | 0 <= i < j :: u[i] == s[i];
      assert FirstAt(u, p) == Some(j);
    case None =>
      assert forall i | 0 <= i < |s| :: u[i] == s[i];
      match FirstAt(u, p)
      case Some(j) =>
        assert j >= |s|;
        assert u[j] == t[j - |s|];
      case None =>
  }

  /** A wall behind an earlier goodie on the same point does not block a flame. */
  lemma EarlierActorHidesWall(g: Actor, wall: Actor, p: Pos)
    requires g.kind.Goodie? && wall.kind.Wall? && g.pos == p && wall.pos == p
    ensures !FlameBlocked([g, wall], p)
  {
    assert FirstAt([g, wall], p) == Some(0);
  }

  // ---------------------------------------------------------------------
  // Nearest actor with a capability

  /** Square of the searches' initial best distance, 1000. */
  const Unseen2: int := Sq(SearchRadius)

  /** The outputs of a nearest-actor search: whether any actor has the
      capability, and the position and squared distance of the nearest. */
  datatype Sighting = Sighting(found: bool, pos: Pos, dist2: int)

  /** Slot `j` holds the nearest actor with `cap` to `p`, and no earlier actor
      with `cap` is equally near: ties go to the earliest actor. */
  ghost predicate EarliestNearest(s: seq<Actor>, p: Pos, cap: Capability, j: int) {
    && 0 <= j < |s| && Has(s[j], cap)
    && (forall i :: 0 <= i < |s| && Has(s[i], cap) ==> Dist2(s[j].pos, p) <= Dist2(s[i].pos, p))
    && (forall i :: 0 <= i < j && Has(s[i], cap) ==> Dist2(s[j].pos, p) < Dist2(s[i].pos, p))
  }

  /** The search loop from slot k on, with the best found so far in `acc`:
      only a strictly smaller distance replaces the best. */
  function ScanNearest(s: seq<Actor>, p: Pos, cap: Capability, k: nat, acc: Sighting): Sighting
    requires k <= |s|
    decreases |s| - k
  {
    if k == |s| then acc
    else
      var d := Dist2(s[k].pos, p);
      var acc' := if Has(s[k], cap) && acc.dist2 > d then Sighting(true, s[k].pos, d)
                  else acc.(found := acc.found || Has(s[k], cap));
      ScanNearest(s, p, cap, k + 1, acc')
  }

  /** What the loop computes: it reports whether any actor from slot k on has
      `cap`; its best distance is at most every such actor's; and either it
      kept `acc`, or it holds the earliest strictly nearer actor. */
  lemma {:induction false} ScanNearestSpec(s: seq<Actor>, p: Pos, cap: Capability, k: nat, acc: Sighting)
    requires k <= |s|
    ensures var r := ScanNearest(s, p, cap, k, acc);
      && (r.found <==> acc.found || exists j :: k <= j < |s| && Has(s[j], cap))
      && r.dist2 <= acc.dist2
      && (forall j :: k <= j < |s| && Has(s[j], cap) ==> r.dist2 <= Dist2(s[j].pos, p))
      && (|| (r.dist2 == acc.dist2 && r.pos == acc.pos)
          || (exists j :: k <= j < |s| && Has(s[j], cap) && r.dist2 < acc.dist2
                          && r.dist2 == Dist2(s[j].pos, p) && r.pos == s[j].pos
                          && forall i :: k <= i < j && Has(s[i], cap) ==> r.dist2 < Dist2(s[i].pos, p)))
    decreases |s| - k
  {
    if k < |s| {
      var d := Dist2(s[k].pos, p);
      var acc' := if Has(s[k], cap) && acc.dist2 > d then Sighting(true, s[k].pos, d)
                  else acc.(found := acc.found || Has(s[k], cap));
      ScanNearestSpec(s, p, cap, k + 1, acc');
    }
  }

  /** StudentWorld::locateNearest{VomitTrigger,CitizenTrigger,CitizenThreat}
      from `p`.  `unset` is the value the caller's output position holds
      before the call; it is left there when no actor is nearer than 1000. */
  function Nearest(s: seq<Actor>, p: Pos, cap: Capability, unset: Pos): Sighting {
    ScanNearest(s, p, cap, 0, Sighting(false, unset, Unseen2))
  }

  /** The search finds an actor with `cap` exactly when one exists; the
      distance it reports is at most 1000 and at most every candidate's; if
      it is below 1000 it belongs to the nearest candidate, the earliest one on
      a tie; otherwise the output position keeps its prior value. */
  lemma NearestSpec(s: seq<Actor>, p: Pos, cap: Capability, unset: Pos)
    ensures var r := Nearest(s, p, cap, unset);
      && (r.found <==> exists j :: 0 <= j < |s| && Has(s[j], cap))
      && r.dist2 <= Unseen2
      && (forall j :: 0 <= j < |s| && Has(s[j], cap) ==> r.dist2 <= Dist2(s[j].pos, p))
      && (r.dist2 == Unseen2 ==> r.pos == unset)
      && (r.dist2 < Unseen2 ==>
            exists j :: EarliestNearest(s, p, cap, j) && r.pos == s[j].pos && r.dist2 == Dist2(s[j].pos, p))
  {
    ScanNearestSpec(s, p, cap, 0, Sighting(false, unset, Unseen2));
  }

  /** StudentWorld::locateNearestCitizenTrigger: the nearest of Penelope and
      the zombies, plus whether it is a threat, decided by comparing the
      reported position with the front actor's (Penelope's) position. */
  function NearestCitizenTrigger(s: seq<Actor>, p: Pos, unset: Pos): (r: (Sighting, bool))
    requires |s| > 0
    ensures r.0 == Nearest(s, p, TriggersCitizens, unset)
    ensures r.1 <==> r.0.pos != s[0].pos
  {
    var sight := Nearest(s, p, TriggersCitizens, unset);
    (sight, sight.pos != s[0].pos)
  }

  /** When Penelope (in front) is strictly nearer than every zombie, she is
      reported and is not a threat. */
  lemma PenelopeNearestIsNoThreat(s: seq<Actor>, p: Pos, unset: Pos)
    requires |s| > 0 && s[0].kind.Penelope? && Dist2(s[0].pos, p) < Unseen2
    requires forall i :: 0 < i < |s| && Has(s[i], TriggersCitizens) ==> Dist2(s[0].pos, p) < Dist2(s[i].pos, p)
    ensures NearestCitizenTrigger(s, p, unset).0.found
    ensures NearestCitizenTrigger(s, p, unset).0.pos == s[0].pos
    ensures !NearestCitizenTrigger(s, p, unset).1
  {
    var r := Nearest(s, p, TriggersCitizens, unset);
    NearestSpec(s, p, TriggersCitizens, unset);
    assert Has(s[0], TriggersCitizens);
    assert r.dist2 <= Dist2(s[0].pos, p);
    var j :| EarliestNearest(s, p, TriggersCitizens, j) && r.pos == s[j].pos && r.dist2 == Dist2(s[j].pos, p);
    assert j == 0;
  }

  /** A zombie strictly nearer than every other trigger, and not standing on
      Penelope's position, is reported as a threat. */
  lemma TriggerThreatReport(s: seq<Actor>, p: Pos, unset: Pos, z: nat)
    requires |s| > 0 && s[0].kind.Penelope? && z < |s| && Has(s[z], ThreatensCitizens)
    requires Dist2(s[z].pos, p) < Unseen2 && s[z].pos != s[0].pos
    requires forall i :: 0 <= i < |s| && i != z && Has(s[i], TriggersCitizens) ==> Dist2(s[z].pos, p) < Dist2(s[i].pos, p)
    ensures NearestCitizenTrigger(s, p, unset).0.found
    ensures NearestCitizenTrigger(s, p, unset).0.pos == s[z].pos
    ensures NearestCitizenTrigger(s, p, unset).1
  {
    var r := Nearest(s, p, TriggersCitizens, unset);
    NearestSpec(s, p, TriggersCitizens, unset);
    assert Has(s[z], TriggersCitizens);
    assert r.dist2 <= Dist2(s[z].pos, p);
    var j :| EarliestNearest(s, p, TriggersCitizens, j) && r.pos == s[j].pos && r.dist2 == Dist2(s[j].pos, p);
    assert j == z;
  }

  /** The searches do not skip dead actors: a dead zombie is still found. */
  lemma DeadZombieStillFound(z: Actor, p: Pos, unset: Pos)
    requires z.kind.Zombie? && !z.alive && Dist2(z.pos, p) < Unseen2
    ensures Nearest([z], p, ThreatensCitizens, unset) == Sighting(true, z.pos, Dist2(z.pos, p))
  {
    var seen := Sighting(true, z.pos, Dist2(z.pos, p));
    assert ScanNearest([z], p, ThreatensCitizens, 1, seen) == seen;
  }
}
