/** The actor class hierarchy as one variant type.

    Every actor has a position, a facing direction and a liveness flag; its
    `Kind` says which concrete class it is and carries that class's own
    fields.  The capability predicates are constant per class, so they are
    defined on the `Class` tag (the dynamic type) and cannot depend on state. */
module Actors {
  import opened Geometry

  datatype Breed = Dumb | Smart

  datatype GoodieKind = VaccineGoodie | GasCanGoodie | LandmineGoodie

  /** Per-class state.  Humans (Penelope, citizens) carry an infection flag and
      counter; agents other than Penelope carry their ticks alive (Penelope's
      inherited counter is never read or written by her code); zombies carry
      their remaining movement plan; flames and vomit their age; landmines
      their safety countdown and armed flag. */
  datatype Kind =
    | Penelope(infected: bool, infection: nat, vaccines: nat, flameCharges: nat, landmines: nat)
    | Citizen(timeAlive: nat, infected: bool, infection: nat)
    | Zombie(breed: Breed, timeAlive: nat, plan: nat)
    | Goodie(goodie: GoodieKind)
    | Flame(age: nat)
    | Vomit(age: nat)
    | Landmine(safety: nat, active: bool)
    | Pit
    | Exit
    | Wall

  datatype Actor = Actor(kind: Kind, pos: Pos, dir: Dir, alive: bool)

  /** The concrete class of an actor, i.e. its constructor plus the zombie breed
      and goodie kind, which are separate classes in the game. */
  datatype Class =
    | PenelopeClass | CitizenClass | DumbZombieClass | SmartZombieClass
    | VaccineGoodieClass | GasCanGoodieClass | LandmineGoodieClass
    | FlameClass | VomitClass | LandmineClass | PitClass | ExitClass | WallClass

  function ClassOf(k: Kind): Class {
    match k
    case Penelope(_, _, _, _, _) => PenelopeClass
    case Citizen(_, _, _) => CitizenClass
    case Zombie(b, _, _) => if b == Dumb then DumbZombieClass else SmartZombieClass
    case Goodie(g) => GoodieClass(g)
    case Flame(_) => FlameClass
    case Vomit(_) => VomitClass
    case Landmine(_, _) => LandmineClass
    case Pit => PitClass
    case Exit => ExitClass
    case Wall => WallClass
  }

  function GoodieClass(g: GoodieKind): Class {
    match g
    case VaccineGoodie => VaccineGoodieClass
    case GasCanGoodie => GasCanGoodieClass
    case LandmineGoodie => LandmineGoodieClass
  }

  predicate IsAgent(c: Class) {
    c == PenelopeClass || c == CitizenClass || c == DumbZombieClass || c == SmartZombieClass
  }

  predicate IsHuman(c: Class) {
    c == PenelopeClass || c == CitizenClass
  }

  predicate IsZombie(c: Class) {
    c == DumbZombieClass || c == SmartZombieClass
  }

  datatype Capability =
    | BlocksMovement
    | BlocksFlame
    | TriggersOnlyActiveLandmines
    | TriggersZombieVomit
    | ThreatensCitizens
    | TriggersCitizens

  /** What the Agent base class turns on for every agent. */
  const AgentCaps: set<Capability> := {BlocksMovement, TriggersOnlyActiveLandmines}

  /** The capabilities a class answers true to: the overrides collected along
      its ancestry.  Every capability not listed keeps the base class default,
      false. */
  function Caps(c: Class): set<Capability> {
    match c
    case PenelopeClass => AgentCaps + {TriggersZombieVomit} + {TriggersCitizens}
    case CitizenClass => AgentCaps + {TriggersZombieVomit}
    case DumbZombieClass => AgentCaps + {TriggersCitizens, ThreatensCitizens}
    case SmartZombieClass => AgentCaps + {TriggersCitizens, ThreatensCitizens}
    case ExitClass => {BlocksFlame}
    case WallClass => {BlocksMovement, BlocksFlame}
    case _ => {}
  }

  predicate Has(a: Actor, cap: Capability) {
    cap in Caps(ClassOf(a.kind))
  }

  /** The capability table, capability by capability. */
  lemma CapabilityTable(c: Class)
    ensures BlocksMovement in Caps(c) <==> IsAgent(c) || c == WallClass
    ensures BlocksFlame in Caps(c) <==> c == ExitClass || c == WallClass
    ensures TriggersOnlyActiveLandmines in Caps(c) <==> IsAgent(c)
    ensures TriggersZombieVomit in Caps(c) <==> IsHuman(c)
    ensures ThreatensCitizens in Caps(c) <==> IsZombie(c)
    ensures TriggersCitizens in Caps(c) <==> c == PenelopeClass || IsZombie(c)
  {
  }

  /** The tick counters of an actor: what only its own per-tick behaviour
      advances.  A dead actor's counters never change. */
  function Clocks(k: Kind): seq<int> {
    match k
    case Penelope(_, n, _, _, _) => [n]
    case Citizen(t, _, n) => [t, n]
    case Zombie(_, t, plan) => [t, plan]
    case Flame(age) => [age]
    case Vomit(age) => [age]
    case Landmine(safety, active) => [safety, if active then 1 else 0]
    case _ => []
  }

  /** The "infection count only grows while infected, and clearing resets both"
      invariant of a human, as a predicate on its state. */
  predicate InfectionConsistent(k: Kind) {
    (k.Penelope? || k.Citizen?) ==> (!k.infected ==> k.infection == 0)
  }

  /** A human turns into a zombie (or dies, for Penelope) once its infection
      counter passes this. */
  const InfectionLimit: nat := 500

  /** Human::incrementInfectionCount as done at the start of a human's tick:
      the counter goes up by one while the human is infected. */
  function Incubate(k: Kind): (r: Kind)
    requires k.Penelope? || k.Citizen?
    ensures ClassOf(r) == ClassOf(k) && r.infected == k.infected
    ensures r.infection == k.infection + (if k.infected then 1 else 0)
    ensures InfectionConsistent(k) ==> InfectionConsistent(r)
    ensures k.Penelope? ==> r.vaccines == k.vaccines && r.flameCharges == k.flameCharges && r.landmines == k.landmines
    ensures k.Citizen? ==> r.timeAlive == k.timeAlive
  {
    if !k.infected then k
    else match k
      case Penelope(_, n, v, f, m) => Penelope(true, n + 1, v, f, m)
      case Citizen(t, _, n) => Citizen(t, true, n + 1)
  }

  // Constructors.  Agents start facing right; objects take the direction
  // their constructor is given, right unless stated.

  function NewPenelope(p: Pos): Actor {
    Actor(Penelope(false, 0, 0, 0, 0), p, Right, true)
  }

  function NewCitizen(p: Pos): Actor {
    Actor(Citizen(0, false, 0), p, Right, true)
  }

  function NewZombie(b: Breed, p: Pos): Actor {
    Actor(Zombie(b, 0, 0), p, Right, true)
  }

  function NewGoodie(g: GoodieKind, p: Pos): Actor {
    Actor(Goodie(g), p, Right, true)
  }

  function NewFlame(p: Pos, d: Dir): Actor {
    Actor(Flame(0), p, d, true)
  }

  function NewVomit(p: Pos, d: Dir): Actor {
    Actor(Vomit(0), p, d, true)
  }

  /** A new landmine waits 30 ticks before it can be armed. */
  function NewLandmine(p: Pos): Actor {
    Actor(Landmine(30, false), p, Right, true)
  }

  function NewPit(p: Pos): Actor {
    Actor(Pit, p, Right, true)
  }

  function NewExit(p: Pos): Actor {
    Actor(Exit, p, Right, true)
  }

  function NewWall(p: Pos): Actor {
    Actor(Wall, p, Right, true)
  }

  /** Every new actor is alive; a new human is uninfected, which is the
      consistent state of the infection invariant. */
  lemma NewActorsStartClean(p: Pos, b: Breed)
    ensures NewPenelope(p).alive && NewCitizen(p).alive && NewZombie(b, p).alive
    ensures InfectionConsistent(NewPenelope(p).kind) && InfectionConsistent(NewCitizen(p).kind)
    ensures !NewPenelope(p).kind.infected && NewPenelope(p).kind.infection == 0
    ensures !NewCitizen(p).kind.infected && NewCitizen(p).kind.infection == 0
    ensures var k := NewPenelope(p).kind; k.vaccines == 0 && k.flameCharges == 0 && k.landmines == 0
    ensures NewPenelope(p).dir == Right && NewCitizen(p).dir == Right && NewZombie(b, p).dir == Right
    ensures Clocks(NewCitizen(p).kind) == [0, 0] && Clocks(NewZombie(b, p).kind) == [0, 0]
  {
  }
}
