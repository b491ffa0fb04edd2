# Zombie Dash actor engine in Dafny

A model of the tick-driven actor engine of Zombie Dash. Penelope walks a maze of
16×16 cells. She burns zombies with flames, lays landmines and uses vaccines.
Citizens follow her or flee zombies, and zombies vomit on humans to infect
them. The model covers:

- the actor list, with the player in front;
- the geometry and spatial queries the actors use;
- the capability table and the activation hooks one actor runs on another;
- each kind's per-tick state machine;
- the tick loop, with its early exits and its deferred dead-actor sweep.

Everything is pure functions over immutable datatypes:

- `Actor` is a record of a `Kind` plus position, direction and liveness. `Kind` has one constructor per concrete class, carrying that class's fields.
- `World` holds the actor sequence, the citizen count, the level-finished flag, the level, score, lives, a log of requested sounds, and a cursor into the random source.

Modules follow the program's structure:

- `Geometry`: pixel positions, moves along the four directions, sprite overlap, squared centre distance.
- `Actors`: kinds, classes, the capability table, constructors with their initial values.
- `Worlds`: the world record, the services (replace, append, sound, score), citizen and level bookkeeping, and the sweep.
- `Queries`: the blocking, first-hit and nearest-actor searches of `StudentWorld`.
- `Agents`: the all-or-nothing move and the choice of direction toward a point.
- `Activation`: every `…IfAppropriate` hook, `activateIfAppropriate` by instigator kind, and the activation pass.
- `Player`, `Citizens`, `Zombies`, `Objects`: the per-kind `doSomething`.
- `Ticks`: `StudentWorld::move`.

Randomness is a parameter:

- A `Source` maps the number of earlier draws to a raw number.
- `randInt(lo, hi)` becomes `lo + src(n) % (hi - lo + 1)`.
- `RollCoversRange` shows that every outcome in range can be produced, so no behaviour of the real generator is excluded.
- The pressed key, if any, is a parameter of the tick, read by Penelope only.

Distances are squared integer distances between positions:

- The game only compares distances with 10, 80, the search sentinel 1000, or with each other.
- Centres are positions plus 8 on both axes, so centre distance equals position distance.
- Positions are whole pixels, because every position is a cell times 16 plus moves of 1, 2 or 4 pixels.

The engine's quirks are modelled as written:

- The searches and the blocking query see dead actors.
- An armed landmine explodes again when a second agent reaches it in the same pass, and a live landmine explodes when burnt even if unarmed.
- `isFlameBlockedAt` looks only at the first overlapping actor.
- With no human anywhere, a smart zombie keeps its heading instead of drawing one.
- The sweep never examines the actor right after an erased one.

## Model

| member | source | states |
|---|---|---|
| Geometry.Shift | ZombieDash/Actor.cpp:15-39 | a move of n pixels changes only the moving axis, by +n for up and right and by -n for down and left |
| Geometry.ShiftDistance | ZombieDash/Actor.cpp:15-39 | a move of n pixels lands at squared distance n² from where it started |
| Geometry.ShiftThenBack | ZombieDash/Actor.cpp:15-39 | moving n pixels and then n pixels the opposite way returns to the start |
| Geometry.ShiftByOneCell | ZombieDash/Actor.cpp:15-39 | a 16-pixel move from a cell origin lands on the origin of the neighbouring cell in that direction |
| Geometry.OverlapIsStrict | ZombieDash/Actor.cpp:69-72 | a point n pixels along one axis overlaps the sprite exactly when \|n\| < 16, so sprites one cell apart do not overlap |
| Geometry.DistinctCellsDoNotOverlap | Actor.h:13-14 | actors placed on different cells of the level never overlap |
| Geometry.CloseImpliesOverlap | ZombieDash/Actor.cpp:69-77 | two actors whose centres are within 10 pixels also overlap as sprites |
| Geometry.StepTowardIsCloser | ZombieDash/Actor.cpp:362-387 | one pixel in a direction toward the target strictly reduces the distance to it |
| Geometry.TwoStepsTowardNotFarther | ZombieDash/Actor.cpp:362-387 | two pixels toward the target never increase the distance, and reduce it when the gap on that axis is at least 2 |
| Geometry.Dist2Symmetric | ZombieDash/Actor.cpp:55-67 | the centre distance is symmetric |
| Geometry.Dist2ZeroIffSame | ZombieDash/Actor.cpp:55-67 | the centre distance is non-negative and is zero exactly when the positions coincide |
| Actors.CapabilityTable | Actor.h:62-412 | every capability is false unless a class overrides it: agents block movement and trigger only armed landmines, walls and exits block flame, humans trigger vomit, Penelope and zombies trigger citizens, only zombies threaten citizens |
| Actors.Incubate | Actor.h:132-140 | an infected human's counter goes up by one and an uninfected one's stays; infection status, inventory and age are kept, and "uninfected means count 0" is preserved |
| Actors.NewActorsStartClean | Actor.h:84-193 | new agents are alive, face right, start at time 0 with plan 0; new humans are uninfected with count 0, and a new Penelope holds no vaccines, flame charges or landmines |
| Worlds.RecordCitizenGone | StudentWorld.cpp:252-255 | the citizen count drops by exactly one and nothing else changes |
| Worlds.RecordLevelFinishedIfAllCitizensGone | StudentWorld.cpp:259-265 | the level is marked finished when the count is 0; otherwise nothing changes |
| Worlds.StartLevel | StudentWorld.cpp:109-127 | a started level has Penelope in front, counts its citizens and is not finished; score, lives and level carry over |
| Worlds.NewWorld | StudentWorld.h:72-75 | a new world is at level 1 with citizen count 0 |
| Worlds.Sweep | StudentWorld.cpp:184-196 | the sweep keeps every live actor, keeps the survivors in order, and removes nothing that was alive |
| Worlds.SweepRemovesIsolatedDead | StudentWorld.cpp:184-196 | when no two dead actors are adjacent, the sweep removes every dead one |
| Worlds.SweepMayKeepDead | StudentWorld.cpp:184-196 | of two adjacent dead actors only the first is removed |
| Worlds.SweepKeepsLiveFront | StudentWorld.cpp:184-196 | a live player in front stays in front |
| Queries.BlockedFrom | StudentWorld.cpp:23-35 | the scan from slot k finds a blocker exactly when some actor from k on, other than the mover, blocks movement and overlaps the point |
| Queries.MovementBlocked | StudentWorld.cpp:23-35 | a point is blocked exactly when some actor other than the mover, dead or alive, blocks movement and its sprite overlaps the point strictly |
| Queries.FirstAtFrom | StudentWorld.cpp:224-235 | the lookup from slot k answers the first overlapping slot at or after k, or none when no such slot overlaps |
| Queries.FirstAt | StudentWorld.cpp:224-235 | the lookup answers the first slot whose sprite overlaps the point, or none exactly when nothing overlaps it |
| Queries.VaccineCreationBlocked | StudentWorld.cpp:268-273 | a vaccine is blocked exactly when some actor's sprite overlaps the point |
| Queries.FlameBlockedMeans | StudentWorld.cpp:276-281 | a flame is blocked exactly when the first overlapping actor in list order blocks flame |
| Queries.PointQueriesSeeLayoutOnly | StudentWorld.cpp:224-281 | the first-hit, flame and vaccine queries depend only on each slot's position and class, not on other state |
| Queries.EarlierActorHidesWall | StudentWorld.cpp:276-281 | a goodie listed before a wall on the same cell hides the wall from the flame query |
| Queries.ScanNearestSpec | StudentWorld.cpp:348-370 | the search loop finds exactly the actors with the capability, reports no more than the best so far and no more than any candidate, and only a strictly nearer candidate replaces the best |
| Queries.NearestSpec | StudentWorld.cpp:295-315 | the search is true iff an actor with the capability exists; the distance is min(1000, nearest); below 1000 the position is the earliest nearest candidate's, and otherwise it is left as the caller's |
| Queries.NearestCitizenTrigger | StudentWorld.cpp:321-343 | the citizen-trigger search is the nearest search over triggers, and it reports a threat exactly when the chosen position differs from the front actor's |
| Queries.PenelopeNearestIsNoThreat | StudentWorld.cpp:321-343 | when Penelope is strictly nearest, she is found and reported as no threat |
| Queries.TriggerThreatReport | StudentWorld.cpp:321-343 | when a zombie off Penelope's position is strictly nearest, it is found and reported as a threat |
| Queries.DeadZombieStillFound | StudentWorld.cpp:348-370 | a dead zombie is still found by the threat search |
| Agents.TryMove | ZombieDash/Actor.cpp:84-96 | a move succeeds exactly when the target is not blocked; then only the mover changes, turning to d and shifting n pixels; otherwise nothing changes |
| Agents.MoveDisplacement | ZombieDash/Actor.cpp:15-39 | a successful move travels exactly n pixels along d's axis and leaves every other actor as it was |
| Agents.HeadingTo | ZombieDash/Actor.cpp:362-387 | the primary direction points toward the target; there is a second direction, on the other axis, exactly when the target is off both axes, and the coin picks which axis leads |
| Agents.FindDirectionTo | ZombieDash/Actor.cpp:362-387 | the direction finder draws a number only when the target is off both axes, and every direction it offers leads toward the target |
| Agents.EitherAxisCanLead | ZombieDash/Actor.cpp:376-386 | off both axes, either axis can be primary depending on the draw, and the other becomes the alternative |
| Activation.KillPlayer | ZombieDash/Actor.cpp:233-238 | Penelope dies and one life is lost; score, citizen count and level flag are unchanged |
| Activation.KillCitizen | ZombieDash/Actor.cpp:428-433 | the citizen dies, counts as gone, and costs 1000 points |
| Activation.KillZombie | ZombieDash/Actor.cpp:451-455 | the zombie dies; score, citizens and lives are unchanged |
| Activation.FlingVaccine | ZombieDash/Actor.cpp:506-518 | a vaccine goodie is appended one cell along d exactly when that spot is not blocked for vaccines |
| Activation.DumbZombieBurns | ZombieDash/Actor.cpp:609-622 | a burnt dumb zombie dies for +1000; it draws once more only on a draw of 10, and a goodie appears only then, one cell away |
| Activation.DumbZombieFlingsVaccine | ZombieDash/Actor.cpp:506-622 | a burnt dumb zombie appends a vaccine exactly when its first draw is 10 and the cell one step along the second draw's direction is not covered; the vaccine then sits on that cell |
| Activation.Blast | ZombieDash/Actor.cpp:712-737 | the explosion is nine actors on the 3×3 cells around the mine, in column-major order: a pit in the middle and upward flames elsewhere |
| Activation.Explode | ZombieDash/Actor.cpp:712-737 | the landmine dies and exactly the nine blast actors are appended; score, citizens, lives and the level flag are unchanged |
| Activation.DieByFallOrBurn | ZombieDash/Actor.cpp:609-646 | agents, goodies and landmines die when burnt or fallen; other kinds are unaffected; only the victim's slot changes and only a dumb zombie or landmine appends |
| Activation.BurnAccounting | ZombieDash/Actor.cpp:609-628 | a burn costs 1000 points for a citizen and earns 1000 for a dumb zombie and 2000 for a smart one; a citizen counts as gone, Penelope loses a life, and a dead landmine is left alone |
| Activation.UseExit | ZombieDash/Actor.cpp:440-446 | a citizen on the exit is saved: dead, counted as gone, +500 points; Penelope finishes the level iff no citizens remain; others are unaffected |
| Activation.BeVomitedOn | ZombieDash/Actor.cpp:102-105 | vomit infects a human and leaves everything else alone, without breaking "uninfected means count 0" |
| Activation.Replenish | Actor.h:159-166 | a pickup adds exactly +1 vaccine, +5 flame charges or +2 landmines according to the goodie kind |
| Activation.PickUpGoodie | ZombieDash/Actor.cpp:226-231 | only Penelope picks up: the goodie dies, +50 points, one inventory counter goes up; for anyone else nothing changes |
| Activation.Activate | ZombieDash/Actor.cpp:634-765 | whatever the instigator, a hook changes only the instigator's and target's slots, moves nobody, lets nobody come back to life, and appends only non-agents (at most nine) |
| Activation.ActivateHooks | ZombieDash/Actor.cpp:634-765 | which hook each instigator runs: pits and live flames burn the target, live vomit infects it, the exit lets it out, an armed landmine explodes under a target that triggers it, and dead projectiles, safe or untriggered landmines, agents and walls change nothing |
| Activation.PassFrom | StudentWorld.cpp:237-248 | the pass from slot j leaves earlier slots, the instigator and every actor not within 10 pixels unchanged; the hook runs on each close slot in list order, actors appended during the pass included (stated by PassSkipsFar and PassReaches) |
| Activation.PassSkipsFar | StudentWorld.cpp:239-243 | a run of slots that are the instigator's own or not within 10 pixels is passed over without calling the hook |
| Activation.PassReaches | StudentWorld.cpp:243-246 | a close slot other than the instigator's gets the hook, and the pass goes on from the next slot in the world the hook left behind |
| Activation.PassPastLastContact | StudentWorld.cpp:237-248 | a pass from a slot past which nobody is close changes nothing |
| Activation.IdleHookPass | StudentWorld.cpp:237-248 | a pass whose hook changes nothing on every slot changes nothing |
| Activation.PassFirstContactHook | StudentWorld.cpp:237-248 | from slot 0, the pass calls the hook first on the first close actor and continues after it |
| Activation.PassAfterOnlyContact | StudentWorld.cpp:237-248 | after the hook on the only close actor, the rest of the pass changes nothing when the hook appended nobody close |
| Activation.SingleContactHook | StudentWorld.cpp:237-248 | a pass that meets one close actor is exactly that one hook call, when the hook appends nobody close |
| Activation.ActivateOnAppropriateActors | StudentWorld.cpp:237-248 | activation reaches only actors whose centres are within 10 pixels of the instigator; nobody moves, and if nobody is close nothing changes |
| Activation.PassFirstContact | StudentWorld.cpp:237-248 | the first close actor in list order gets the instigator's activateIfAppropriate, and the pass goes on after it in the world that left |
| Activation.SingleContactPass | StudentWorld.cpp:237-248 | with exactly one actor close to the instigator, the whole pass is that actor's activateIfAppropriate, when it appends nobody close |
| Activation.DeadProjectilePassIsInert | ZombieDash/Actor.cpp:688-696 | a dead flame or vomit runs its pass and it changes nothing |
| Activation.DeadArmedLandmineStillExplodes | ZombieDash/Actor.cpp:702-705 | an armed landmine explodes on an agent even when already dead |
| Activation.ArmedLandmineExplodesTwice | ZombieDash/Actor.cpp:702-737 | two agents on an armed landmine in one pass make it explode twice: eighteen actors and two explosion sounds |
| Activation.BurningExplodesLiveLandmine | ZombieDash/Actor.cpp:707-710 | burning a live landmine explodes it, armed or not |
| Activation.GoodiePickup | ZombieDash/Actor.cpp:634-641 | a goodie activated on Penelope dies, gives +50 points and its inventory, and requests the got-goodie sound |
| Activation.BlastCoversNeighbourhood | ZombieDash/Actor.cpp:712-737 | every one of the nine neighbouring cells gets exactly one blast actor, the pit on the mine's own cell |
| Player.PlayerMove | ZombieDash/Actor.cpp:215-224 | Penelope faces d even when blocked, and moves exactly 4 pixels along d iff the target is free |
| Player.FlameLine | ZombieDash/Actor.cpp:169-195 | the flame loop appends consecutive flames, one cell apart and facing her way, and it stops exactly at the reference first blocked cell FirstFlameBlock, read off the list before the loop |
| Player.FirstFlameBlockIsFirst | ZombieDash/Actor.cpp:169-195 | every cell before the reference stop is free of flame blockers, and the stop itself blocks unless the loop ran past the third cell |
| Player.CreateFlame | ZombieDash/Actor.cpp:161-198 | with no charge nothing changes; only the actor list and the sound log ever change |
| Player.CreateFlameLays | ZombieDash/Actor.cpp:161-198 | with a charge, one charge is spent and m flames are laid 1 to m cells ahead, where cell m + 1 is the first blocked cell (4 when none is); the fire sound is requested iff all 3 are laid |
| Player.CreateFlameStopsAtFirstBlock | ZombieDash/Actor.cpp:169-195 | every cell a flame is laid on was free, and fewer than three flames means the next cell blocks flames |
| Player.UseVaccine | ZombieDash/Actor.cpp:200-205 | with no vaccine nothing changes; otherwise infection is cleared with count 0 and one vaccine is used |
| Player.SetMine | ZombieDash/Actor.cpp:207-213 | with no landmine nothing changes; otherwise one is used and a new unarmed landmine is appended at her position |
| Player.ActOnKey | ZombieDash/Actor.cpp:129-156 | a direction key moves her that way, the space bar fires, tab plants a landmine, enter uses a vaccine, and no key or another key changes nothing; only the actor list and sounds change and her infection stays consistent |
| Player.PlayerStep | ZombieDash/Actor.cpp:117-157 | a dead Penelope does nothing; an infected one whose count passes 500 dies and loses a life; otherwise her infection is counted and then the key acts as ActOnKey on that world; with no key and no infection nothing changes; score, citizens and draws are untouched |
| Player.ArrowKeyMoves | ZombieDash/Actor.cpp:117-156 | an uninfected live Penelope pressing a direction key makes exactly the move PlayerMove states for that direction |
| Player.FireIntoOpenSpace | ZombieDash/Actor.cpp:161-198 | with three free cells ahead, exactly three flames are placed and the fire sound is requested |
| Player.FireIntoWall | ZombieDash/Actor.cpp:161-198 | with a blocked first cell, a charge is spent but no flame is placed and no sound requested |
| Player.InfectionRunsOut | ZombieDash/Actor.cpp:117-127 | on her last infected tick Penelope dies whatever key is pressed, and the player-die sound is requested |
| Player.VaccineCures | ZombieDash/Actor.cpp:200-205 | a vaccine clears infection and its count, uses one vaccine, and the count stays at 0 on the next idle tick |
| Citizens.TurnIntoZombie | ZombieDash/Actor.cpp:413-433 | the citizen dies for -1000 and counts as gone; exactly one zombie is appended on its position, dumb iff the draw in [1,10] is at most 7 |
| Citizens.MoveTowards | ZombieDash/Actor.cpp:347-360 | the citizen moves 2 pixels toward the target along the primary direction if free, else along the alternative; it reports whether it moved, and nothing changes when it did not |
| Citizens.EscapeDistance | ZombieDash/Actor.cpp:327-343 | a direction whose 2-pixel step is blocked scores 0; no score exceeds the squared 1000-pixel sentinel |
| Citizens.EscapeDistanceMeans | ZombieDash/Actor.cpp:327-343 | an open step scores the squared distance from the stepped position to the nearest zombie: no zombie is nearer, one is exactly that far unless the score is the sentinel, and with no zombie the sentinel comes back |
| Citizens.ArgMaxFrom | ZombieDash/Actor.cpp:396-404 | the loop's result is at least every candidate and the starting best; it changes only to a strictly larger candidate, and on ties the earliest wins |
| Citizens.MoveAwayFrom | ZombieDash/Actor.cpp:389-410 | the citizen stays unless some direction takes it strictly farther from the nearest zombie; otherwise it steps 2 pixels in the first direction with the largest such distance |
| Citizens.CitizenMoves | ZombieDash/Actor.cpp:280-321 | on a moving tick only the citizen itself moves and turns, by one 2-pixel step at most |
| Citizens.CitizenFollowsPenelope | ZombieDash/Actor.cpp:283-307 | when Penelope is the strictly nearest trigger within 80 pixels and the first-choice step is free, the citizen steps 2 pixels in a direction toward her |
| Citizens.CitizenFleesNearestZombie | ZombieDash/Actor.cpp:283-320 | when a zombie is the strictly nearest trigger within 80 pixels, the citizen moves exactly as MoveAwayFrom from that zombie |
| Citizens.CitizenMovesIdleOutOfSight | ZombieDash/Actor.cpp:283-321 | with no trigger within 80 pixels the citizen stays and nothing changes |
| Citizens.Aged | ZombieDash/Actor.cpp:258-264 | a citizen's age goes up by one on every live tick, and its infection count by one while infected |
| Citizens.CitizenTick | ZombieDash/Actor.cpp:256-322 | a dead citizen does nothing; a live one ages, counts its infection, announces its first infected tick and requests the zombie-birth sound when it turns |
| Citizens.CitizenTickMovesOnOddTicks | ZombieDash/Actor.cpp:256-280 | on an odd tick a citizen that does not turn ages, announces its first infected tick, and then moves as CitizenMoves in the world so far |
| Citizens.CitizenTickTurns | ZombieDash/Actor.cpp:272-276 | a live citizen whose count passes 500 dies for -1000 points, one citizen is gone, and a zombie appears on its position |
| Citizens.CitizenTickStays | ZombieDash/Actor.cpp:272-278 | a citizen whose count stays within 500 stays alive and alone changes; on even ticks it neither moves nor draws |
| Zombies.TryVomit | ZombieDash/Actor.cpp:459-503 | a zombie vomits only when a human is within 10 pixels of the cell ahead and the 1-in-3 draw hits; it then appends vomit there facing its way and requests the sound |
| Zombies.DumbPlan | ZombieDash/Actor.cpp:534-542 | a dumb zombie's new plan is a draw in [3,10] followed by a direction draw, two draws in all |
| Zombies.SmartPlan | ZombieDash/Actor.cpp:569-595 | a smart zombie's new plan is 3 plus the first draw mod 8; with the nearest human within 80 pixels it turns the way the direction search toward that human picks first, with the nearest human farther away it takes the direction drawn next, and with no human it keeps its heading |
| Zombies.Replanned | ZombieDash/Actor.cpp:533-542 | a zombie with plan left keeps it; a used-up plan is replaced by one in [3,10], and only the plan and facing change |
| Zombies.Advance | ZombieDash/Actor.cpp:544-553 | a zombie moves 1 pixel ahead and decrements its plan when free, and otherwise stays with plan 0 |
| Zombies.ZombieMoves | ZombieDash/Actor.cpp:530-553 | on a moving tick a zombie either vomits and stands, or moves at most 1 pixel; nobody else changes and the plan stays within 10 |
| Zombies.ZombieMovesCases | ZombieDash/Actor.cpp:459-607 | with no human near the cell ahead the zombie replans if need be and advances with no vomit draw; with one there, a draw of 1 in [1,3] puts vomit ahead and it stands, and any other draw leaves it to replan and advance |
| Zombies.ZombieTick | ZombieDash/Actor.cpp:520-607 | a dead zombie does nothing; a live one keeps its breed; score, citizens and lives never change; only its own slot changes and at most one actor is appended |
| Zombies.ZombieTickAges | ZombieDash/Actor.cpp:520-564 | a live zombie is one tick older; on an even tick that is all, with no draw and no sound |
| Zombies.ZombieTickMovesOnOddTicks | ZombieDash/Actor.cpp:520-607 | on an odd tick a live zombie ages and then moves exactly as ZombieMoves, seeing itself already aged |
| Zombies.SmartZombieWithoutHumansKeepsHeading | ZombieDash/Actor.cpp:574-593 | with no human anywhere, a smart zombie picking a plan keeps its heading and draws only once |
| Zombies.VomitingZombieStands | ZombieDash/Actor.cpp:530-531 | a zombie that vomits does not move, turn or change its plan that tick |
| Objects.PassIfAlive | ZombieDash/Actor.cpp:648-765 | a live goodie, pit or exit runs exactly the activation pass, and a dead one does nothing |
| Objects.ProjectileTick | ZombieDash/Actor.cpp:673-687 | a dead projectile does nothing; nobody moves; the tick is a progression of the world |
| Objects.ProjectileTickAges | ZombieDash/Actor.cpp:673-687 | a live projectile ages by one in place; at age 3 it dies and affects nobody; younger, it runs exactly the activation pass over the world as it is and then ages |
| Objects.LoneProjectileAges | ZombieDash/Actor.cpp:673-687 | a young projectile with nobody close only ages |
| Objects.ProjectileTickIsLocal | ZombieDash/Actor.cpp:681-687 | actors the projectile does not overlap are unchanged |
| Objects.LandmineTick | ZombieDash/Actor.cpp:738-750 | a dead landmine does nothing; an unarmed one only counts down or arms, without activating that tick; an armed live one runs exactly the activation pass |
| Objects.AgentSetsOffArmedLandmine | ZombieDash/Actor.cpp:702-750 | an armed landmine with one agent on it and nothing else in the level that can trigger it explodes exactly once on its tick: the blast it appends does not set it off again |
| Activation.OnlyActiveContact | StudentWorld.cpp:237-248 | a pass whose hook acts only on one close slot, in the list before it and in the list it leaves behind, is that one hook call |
| Activation.IdleHookPrefix | StudentWorld.cpp:237-248 | slots on which the hook changes nothing are passed over |
| Activation.LandmineIdleBetween | ZombieDash/Actor.cpp:702-705 | a landmine's hook changes nothing on slots none of which can trigger it |
| Objects.CountdownArms | ZombieDash/Actor.cpp:738-750 | an unarmed landmine with safety s is still unarmed after s ticks and armed from tick s + 1 |
| Objects.ArmedStaysArmed | ZombieDash/Actor.cpp:738-750 | an armed landmine stays armed |
| Objects.NewLandmineArming | Actor.h:375-376 | a new landmine is armed after exactly 31 countdown ticks |
| Objects.ProjectileExpires | ZombieDash/Actor.cpp:673-691 | on its fourth tick a flame only dies and ages; score, sounds and draws are unchanged |
| Ticks.DoSomething | StudentWorld.cpp:137-141 | an actor's turn dispatches on its kind: Penelope reads the key, citizens, zombies, projectiles and landmines tick, goodies, pits and exits run a pass while alive, walls do nothing; a dead actor's turn changes nothing |
| Ticks.EvolvesKeepsPlayer | StudentWorld.h:72 | the front actor stays Penelope as the list evolves, and a dead Penelope stays dead |
| Ticks.Visit | StudentWorld.cpp:137-152 | player-died leaves the front actor dead; finished-level leaves it alive with the flag set; continue keeps the flag and a live Penelope alive and ends within the fuel; stalled only when the list outgrew the fuel |
| Ticks.VisitLiveStep | StudentWorld.cpp:137-152 | a live actor acts and, unless Penelope died or the level finished, the loop goes on from the next slot in the world it left |
| Ticks.Tick | StudentWorld.cpp:131-160 | player-died leaves Penelope dead; finished-level adds exactly one to the level and ends with the level-finished sound; continue means the swept list of an evolved list, with Penelope alive in front |
| Ticks.KeyReachesOnlyPenelope | ZombieDash/Actor.cpp:129-156 | every actor but Penelope acts the same whatever key is pressed |
| Ticks.SweepKeepsAllAlive | StudentWorld.cpp:184-196 | a sweep of a list with no dead actor keeps it as it is |
| Ticks.IdleVisitChangesNothing | StudentWorld.cpp:137-152 | the visits of an idle world change nothing |
| Ticks.IdleTickChangesNothing | StudentWorld.cpp:131-160 | with no key, an uninfected Penelope among walls leaves the world exactly as it was |
| Ticks.TickKeepsAllAlive | StudentWorld.cpp:152-159 | a loop that runs to the end with nobody dead is the whole tick |
| Ticks.FireFromLonePlayer | ZombieDash/Actor.cpp:117-198 | a lone uninfected Penelope who fires into open space lays three flames and requests the fire sound |
| Ticks.FlamesAfterFiring | StudentWorld.cpp:137-152 | the flames she just laid are visited later in the same loop, and each runs its pass over nobody and ages |
| Ticks.PlantedMineActsInSameTick | StudentWorld.cpp:131-160 | actors appended during a tick act in that tick: a planted landmine has already counted down once when the tick ends |
| Ticks.InfectedPlayerEndsTick | StudentWorld.cpp:137-145 | a Penelope on her last infected tick dies first and the tick ends there: nobody else acts and no key is read |

## Left out

- Level loading (`loadLevel`, the `Level` class) and the `init` status codes: file I/O and framework return codes. `StartLevel` builds a level directly from an actor list.
- `getStatString` and `setGameStatText`: status-line presentation.
- Rendering (images, depth, size) and sound playback. Sound requests are kept as an event log in the world.
- `getKey`: the key is a parameter of the tick.
- `randInt`: draws come from a `Source` parameter.
- The floating-point `sqrt`/`pow` distance: squared integer distances decide every comparison the same way.
- Memory management (`new`, `delete`, `cleanUp`, the destructor): removal is sequence filtering.
- `isZombieVomitTriggerAt`: it is never called and dereferences a null pointer when nothing is found.
- Score and lives belong to the framework's `GameWorld`, which is not part of this model; they are plain integer fields here.
- GameConstants.h is not part of this model; the sprite size is taken as 16×16 pixels.
- The uninitialised `otherX`/`otherY` of a search that finds nothing nearer than 1000: the caller passes the value they keep, its own position.
- The player's own time-alive counter: Penelope never reads it.
- C++ `int` overflow of score, counters and ages: integers are unbounded here.
- Two players in one level would each read a key: the model hands every Penelope the same key.
- Ticks.Visit: the loop is bounded by a `fuel` count of visits and ends with `Stalled` when the list outgrows it. The game's loop has no bound; how far it runs depends on how many actors each tick appends.
- Ticks.Tick: requires a live Penelope in front. `move` keeps a pointer to the front actor, and the framework only calls it while she lives.
- Activation.ActivateOnAppropriateActors: the contract states which slots can change; the order in which close actors are activated is stated by `PassSkipsFar`, `PassReaches` and `PassFirstContact`, not by this contract.
- Activation.Activate: the contract states only what any hook may change. Which hook each instigator calls is stated by `ActivateHooks`, and what the hook does by its own contract.
- Activation.DieByFallOrBurn: the score, citizen and lives accounting is stated in `BurnAccounting`, not in the function's own contract.
- Citizens.CitizenMoves: the contract states only that the citizen moves at most one 2-pixel step. Which way it goes is stated by `CitizenFollowsPenelope`, `CitizenFleesNearestZombie` and `CitizenMovesIdleOutOfSight` when one trigger is strictly nearest. Ties, and falling back to fleeing after a blocked step toward Penelope, are left to the body and to `MoveTowards` and `MoveAwayFrom`.
- Ticks.Tick: a whole tick is worked out only for the landmine example `PlantedMineActsInSameTick`; for firing, the Penelope step and the rest of the loop are shown separately (`FireFromLonePlayer`, `FlamesAfterFiring`).
- Zombies.ZombieTick: the moving half is stated by `ZombieTickMovesOnOddTicks` and the aging by `ZombieTickAges`, not by the function's own contract.
- Citizens.CitizenTick: the moving half is stated by `CitizenTickMovesOnOddTicks`, not by the function's own contract.
- Objects.ProjectileTick: the contract states the frame of the tick; what a live projectile does, its pass included, is stated by `ProjectileTickAges`.
- Activation.DumbZombieBurns: the contract states that a goodie means a draw of 10; the converse, a draw of 10 and a free cell give a vaccine there, is stated by `DumbZombieFlingsVaccine`.
- Zombies.ZombieMoves: the contract states the frame of a moving tick; the order of vomit, replanning and advancing is stated by `ZombieMovesCases`.
- The searches' doc comments in StudentWorld.h (lines 49-63) promise living actors only, but the code does not check liveness. The model follows the code.
