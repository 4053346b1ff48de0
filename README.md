# Shadows of Infinity: combat core

This project models the combat loop of the game scene in `GameScene.tsx` and proves its properties. The loop covers:

- the player's ship (the cube) and the enemy's ship (the target sphere);
- their torpedo pools (20 slots per side) and point-defense pools (100 slots per side);
- four point-defense controllers (PDCs) per side;
- the per-frame tick that fires volleys, runs the PDCs, resolves torpedoes and rounds, and ends the game.

A projectile slot's only modelled state is its visibility flag, which is the slot's "active" flag. The engine's geometry is replaced by a per-frame `Sweep` for each side. A sweep records which torpedo or round hits the opposing ship, which torpedo overlaps which opposing round, and which projectiles are beyond the 300-unit despawn radius.

Modules:

- `Pool` (`pool.dfy`): slot counting, the first-inactive search (`find(p => !p.isVisible)`), and activating the first `k` inactive slots.
- `Launcher` (`launcher.dfy`): `fireTorpedo`.
- `PointDefense` (`point_defense.dfy`): the `PDC` class, and a side's PDC loop with target acquisition.
- `Resolver` (`resolver.dfy`): `updateProjectiles` and `updatePDProjectiles`.
- `Scene` (`scene.dfy`): the combat state, the tick callback (`Battle.Frame`) and the game-over check.

Each imperative method works on arrays, objects and loops as the source does. It is proved equal to a reference function on values, such as `FireVolley`, `PdcUpdate`, `PdcsAfter`, `TorpedoesAfter`, `RoundsAfter` or `Tick`. The lemmas state what those functions promise. The state-changing methods, such as `Battle.Frame`, `PDC.Update`, `PDC.Track` and `UpdatePdcs`, state their new state in terms of the old one. Their properties are proved as lemmas about the reference functions they equal.

The model keeps these behaviours of the code as written:

- A PDC whose interval has passed restarts its timestamp even when no round slot is free.
- A volley restarts the side's volley time even when no slot is free.
- A volley subtracts the number launched from any positive count, so the count can go negative.
- A torpedo can hit and be intercepted in the same frame, and can be intercepted by several rounds. Each interception hides the round and gives its side one torpedo back.
- Health can go below 0.
- When both ships reach 0 in one frame, the player has lost.

A PDC's tracked torpedo is named by its slot index. The source also checks only the slot's visibility, with no check that it is still the same launch. So when a slot is hidden in one frame and relaunched by the next frame's volley before the PDC loop looks at it, the PDC keeps tracking it, as in the code.

## Model

| member | source | states |
|---|---|---|
| Pool.FirstInactive | shadows-of-infinity/client/src/components/GameScene.tsx:98 | the slot found is inactive, every earlier slot is active, and none is found exactly when all slots are active |
| Pool.FindInactive | shadows-of-infinity/client/src/components/GameScene.tsx:98 | the linear search over the pool returns the first inactive slot, or none |
| Pool.ActivateFirstInactiveCount | shadows-of-infinity/client/src/components/GameScene.tsx:118-123 | activating the first `k` inactive slots never hides a slot and shows exactly `min(k, #inactive)` slots |
| Pool.ActivateOneIsFirstInactive | shadows-of-infinity/client/src/components/GameScene.tsx:98-101 | showing one slot is the same as showing the slot `find` returns, and nothing if there is none |
| Pool.CountInactivePositive | shadows-of-infinity/client/src/components/GameScene.tsx:98-99 | a pool has a free slot exactly when its inactive count is positive |
| Launcher.FireTorpedo | shadows-of-infinity/client/src/components/GameScene.tsx:116-127 | the scan over the pool leaves the pool and returns the count that `FireVolley` gives |
| Launcher.FireVolley | shadows-of-infinity/client/src/components/GameScene.tsx:116-127 | reference definition of a volley: the pool keeps its size and the count never rises |
| Launcher.FireVolleyEffect | shadows-of-infinity/client/src/components/GameScene.tsx:116-127 | nothing changes for a count of 0 or below; otherwise exactly `min(4, #inactive)` slots, the first inactive ones, become active, and the count drops by that number |
| Launcher.FireVolleyCanOverdraw | shadows-of-infinity/client/src/components/GameScene.tsx:117-124 | a count between 1 and 3 with 4 free slots leaves a negative count |
| Launcher.VolleyIntoEmptyPool | shadows-of-infinity/client/src/components/GameScene.tsx:116-127 | a volley into an empty pool shows slots 0..3 and takes `min(4, n)` from the count |
| PointDefense.PDC.Track | shadows-of-infinity/client/src/components/GameScene.tsx:89-93 | a target is adopted only when the PDC holds none |
| PointDefense.PDC.constructor | shadows-of-infinity/client/src/components/GameScene.tsx:85-87 | a new PDC tracks nothing and last fired at time 0 |
| PointDefense.Adopt | shadows-of-infinity/client/src/components/GameScene.tsx:89-93 | after `track` an idle PDC holds exactly the given slot, a PDC that already holds a target keeps it, and the timestamp is untouched |
| PointDefense.PDC.Update | shadows-of-infinity/client/src/components/GameScene.tsx:95-110 | the PDC and the pool end as `PdcUpdate` gives |
| PointDefense.PdcUpdate | shadows-of-infinity/client/src/components/GameScene.tsx:95-110 | reference definition of `update`: the pool keeps its size, the target stays in range, and the target is kept or dropped, never replaced |
| PointDefense.UpdateWithoutTarget | shadows-of-infinity/client/src/components/GameScene.tsx:95-110 | with no visible target, `update` clears the target and changes no round slot and no timestamp |
| PointDefense.UpdateWithTarget | shadows-of-infinity/client/src/components/GameScene.tsx:96-106 | with a visible target, the target is kept; the timestamp becomes `now` exactly when more than 100 ms have passed; in that case the first inactive round slot, if any, is shown, and otherwise nothing changes |
| PointDefense.UpdateNeverFiresEarly | shadows-of-infinity/client/src/components/GameScene.tsx:97 | within 100 ms of the last shot no round is fired |
| PointDefense.UpdateOnFullPoolRestartsTimer | shadows-of-infinity/client/src/components/GameScene.tsx:97-105 | with the gate open and every slot busy, nothing fires but the timestamp restarts |
| PointDefense.FirstUntracked | shadows-of-infinity/client/src/components/GameScene.tsx:208 | the slot found is visible and tracked by no PDC of the side, and every earlier slot is hidden or tracked; none is found exactly when no such slot exists |
| PointDefense.FindUntracked | shadows-of-infinity/client/src/components/GameScene.tsx:206-218 | the nested search returns `FirstUntracked` |
| PointDefense.IsTracked | shadows-of-infinity/client/src/components/GameScene.tsx:208 | the `some` test holds exactly when a PDC of the side tracks the slot |
| PointDefense.Acquire | shadows-of-infinity/client/src/components/GameScene.tsx:207-210 | an idle PDC ends holding exactly the first visible slot no PDC of its side tracks, or nothing when there is none; a PDC that holds a target keeps it; the timestamp is untouched |
| PointDefense.PdcTurn | shadows-of-infinity/client/src/components/GameScene.tsx:206-212 | reference definition of one PDC's turn: sizes and target ranges kept, and no other PDC of the side changes |
| PointDefense.PdcTurnTracks | shadows-of-infinity/client/src/components/GameScene.tsx:207-211 | an idle PDC whose side leaves a visible torpedo untracked ends its turn tracking the first such torpedo; a PDC whose target is still visible keeps it |
| PointDefense.PdcsAfter | shadows-of-infinity/client/src/components/GameScene.tsx:206-220 | reference definition of a side's PDC loop: sizes and target ranges kept |
| PointDefense.TakeTurn | shadows-of-infinity/client/src/components/GameScene.tsx:206-212 | one PDC's acquire-then-update leaves the side's PDCs and pool as `PdcTurn` gives |
| PointDefense.UpdatePdcs | shadows-of-infinity/client/src/components/GameScene.tsx:206-220 | a side's PDC loop leaves its PDCs and pool as `PdcsAfter` gives |
| PointDefense.PdcTurnKeepsTargetsDistinct | shadows-of-infinity/client/src/components/GameScene.tsx:207-209 | after a PDC's turn, no two PDCs of the side track the same slot |
| PointDefense.PdcsAfterKeepsTargetsDistinct | shadows-of-infinity/client/src/components/GameScene.tsx:206-220 | the whole PDC loop keeps the side's targets distinct |
| PointDefense.PdcTurnFiresAtMostOnce | shadows-of-infinity/client/src/components/GameScene.tsx:98-101 | a PDC's turn hides no round slot and shows at most one |
| PointDefense.PdcsAfterKeepsRoundsActive | shadows-of-infinity/client/src/components/GameScene.tsx:206-220 | the PDC loop never hides a round slot |
| PointDefense.PdcsAfterFiresAtMostOnceEach | shadows-of-infinity/client/src/components/GameScene.tsx:206-220 | the PDC loop shows at most one round slot per PDC |
| Resolver.TorpedoStepEffect | shadows-of-infinity/client/src/components/GameScene.tsx:130-163 | for an active torpedo: the ship loses exactly 10 health if hit and nothing from interceptions; each hidden round gives back one torpedo; exactly the active rounds it overlaps are hidden; the torpedo ends hidden exactly when it hit, was intercepted or left the radius; no other torpedo changes |
| Resolver.TorpedoStep | shadows-of-infinity/client/src/components/GameScene.tsx:130-164 | reference definition of one torpedo's turn: pool sizes kept, health never rises and the count never falls |
| Resolver.TorpedoesAfter | shadows-of-infinity/client/src/components/GameScene.tsx:129-165 | reference definition of the torpedo pass over the first `n` torpedoes: pool sizes kept |
| Resolver.RoundStep | shadows-of-infinity/client/src/components/GameScene.tsx:168-183 | reference definition of one round's turn: pool size kept and health never rises |
| Resolver.RoundsAfter | shadows-of-infinity/client/src/components/GameScene.tsx:167-184 | reference definition of the point-defense pass over the first `n` rounds: pool size kept |
| Resolver.TorpedoesAfterConservesAmmo | shadows-of-infinity/client/src/components/GameScene.tsx:147-158 | over a torpedo pass, the side's torpedo count plus the opposing active rounds is unchanged |
| Resolver.TorpedoesAfterOnlyHides | shadows-of-infinity/client/src/components/GameScene.tsx:129-165 | a torpedo pass never shows a slot in either pool and leaves the torpedoes it has not reached alone |
| Resolver.TorpedoesAfterDamage | shadows-of-infinity/client/src/components/GameScene.tsx:135-145 | the opposing ship loses exactly 10 health per active torpedo that hit it |
| Resolver.TorpedoesAfterFate | shadows-of-infinity/client/src/components/GameScene.tsx:130-163 | a torpedo is still active after the pass exactly when it was active, missed the ship, stayed inside the radius and met no active opposing round when its turn came |
| Resolver.HitAndInterceptedTwice | shadows-of-infinity/client/src/components/GameScene.tsx:135-158 | a torpedo that hits and is overlapped by two rounds costs 10 health and gives back two torpedoes |
| Resolver.RoundsAfterEffect | shadows-of-infinity/client/src/components/GameScene.tsx:167-184 | a round stays active exactly when it was active, missed and stayed inside the radius; the ship loses exactly 1 health per active round that hit |
| Resolver.TryIntercept | shadows-of-infinity/client/src/components/GameScene.tsx:148-150 | an active overlapping round is hidden and hides the torpedo; nothing else changes |
| Resolver.InterceptionLoop | shadows-of-infinity/client/src/components/GameScene.tsx:147-158 | the loop hides exactly the overlapping active rounds, counts them, and hides the torpedo exactly when it counted one |
| Resolver.ResolveTorpedo | shadows-of-infinity/client/src/components/GameScene.tsx:131-163 | one torpedo's turn ends as `TorpedoStep` gives |
| Resolver.UpdateProjectiles | shadows-of-infinity/client/src/components/GameScene.tsx:129-165 | the pass leaves both pools, the health and the count as `TorpedoesAfter` gives |
| Resolver.UpdatePDProjectiles | shadows-of-infinity/client/src/components/GameScene.tsx:167-184 | the pass leaves the pool and the health as `RoundsAfter` gives |
| Scene.AutoFireEffect | shadows-of-infinity/client/src/components/GameScene.tsx:193-203 | with the gate shut nothing changes; with it open the volley time becomes `now`, the first `min(4, #free)` hidden slots are shown and no other slot changes, the count drops by that number, and with no free slot nothing else changes |
| Scene.AutoFire | shadows-of-infinity/client/src/components/GameScene.tsx:193-203 | reference definition of one side's auto-fire block: the pool keeps its size, and either nothing changes or the volley time becomes `now` and the count does not rise |
| Scene.AutoFireSide | shadows-of-infinity/client/src/components/GameScene.tsx:194-197 | one side's auto-fire block leaves the pool, count and time as `AutoFire` gives |
| Scene.TickKeepsWellFormed | shadows-of-infinity/client/src/components/GameScene.tsx:190-233 | every tick keeps pool sizes and target ranges, and keeps each side's PDC targets distinct |
| Scene.Tick | shadows-of-infinity/client/src/components/GameScene.tsx:190-233 | reference definition of one frame, its nine steps in order, nothing once over; pool sizes and target ranges are kept |
| Scene.PlayerAutoFire | shadows-of-infinity/client/src/components/GameScene.tsx:194-197 | the player's auto-fire block on the player's torpedo pool, count and volley time; the pool sizes and target ranges are kept |
| Scene.EnemyAutoFire | shadows-of-infinity/client/src/components/GameScene.tsx:200-203 | the enemy's auto-fire block on the enemy's torpedo pool, count and volley time; the pool sizes and target ranges are kept |
| Scene.PlayerPdcs | shadows-of-infinity/client/src/components/GameScene.tsx:206-212 | the player's PDC loop against the enemy's torpedo pool, firing into the player's round pool; the pool sizes and target ranges are kept |
| Scene.EnemyPdcs | shadows-of-infinity/client/src/components/GameScene.tsx:214-220 | the enemy's PDC loop against the player's torpedo pool, firing into the enemy's round pool; the pool sizes and target ranges are kept |
| Scene.PlayerTorpedoes | shadows-of-infinity/client/src/components/GameScene.tsx:222 | the player's torpedo pass against the enemy's round pool, taking the enemy's health and returning torpedoes to the player's count; the pool sizes and target ranges are kept |
| Scene.EnemyTorpedoes | shadows-of-infinity/client/src/components/GameScene.tsx:223 | the enemy's torpedo pass against the player's round pool, taking the player's health and returning torpedoes to the enemy's count; the pool sizes and target ranges are kept |
| Scene.PlayerRounds | shadows-of-infinity/client/src/components/GameScene.tsx:224 | the player's round pass against the enemy's health; the pool sizes and target ranges are kept |
| Scene.EnemyRounds | shadows-of-infinity/client/src/components/GameScene.tsx:225 | the enemy's round pass against the player's health; the pool sizes and target ranges are kept |
| Scene.Run | shadows-of-infinity/client/src/components/GameScene.tsx:190-233 | a run of frames, one `Tick` each, keeps the pool sizes and target ranges |
| Scene.GameOverCheck | shadows-of-infinity/client/src/components/GameScene.tsx:228-232 | the game ends exactly when a ship is at 0 health or below, and nothing else changes |
| Scene.Outcome | shadows-of-infinity/client/src/components/GameScene.tsx:230 | the message is given only once the game is over; then a player at 0 or below has lost, and otherwise the player has won |
| Scene.Initial | shadows-of-infinity/client/src/components/GameScene.tsx:52-187 | the set-up state is well formed and the game is not over |
| Scene.NewPool | shadows-of-infinity/client/src/components/GameScene.tsx:35-49 | a new pool of `n` slots, all hidden |
| Scene.NewSide | shadows-of-infinity/client/src/components/GameScene.tsx:113-114 | four distinct new PDCs, each idle with timestamp 0 |
| Scene.TickNeverHeals | shadows-of-infinity/client/src/components/GameScene.tsx:222-225 | neither ship's health rises in a tick |
| Scene.TickOutcome | shadows-of-infinity/client/src/components/GameScene.tsx:228-232 | after a tick, the game is over exactly when a ship is at 0 or below, and the player has lost exactly when the player's ship is, a mutual kill included |
| Scene.TickVolleyTimes | shadows-of-infinity/client/src/components/GameScene.tsx:194-203 | a side's volley time becomes `now` exactly when its gate was open at the start of the tick |
| Scene.RunAfterGameOver | shadows-of-infinity/client/src/components/GameScene.tsx:229-232 | once the game is over, no run of frames changes anything |
| Scene.Battle.constructor | shadows-of-infinity/client/src/components/GameScene.tsx:52-187 | health 100 and 20 torpedoes per side, timestamps 0, every slot hidden, every PDC idle |
| Scene.Battle.Frame | shadows-of-infinity/client/src/components/GameScene.tsx:190-233 | one callback leaves the state as `Tick` gives and keeps it valid |
| Scene.Battle.Volleys | shadows-of-infinity/client/src/components/GameScene.tsx:193-203 | both auto-fire blocks, the player's first |
| Scene.Battle.PlayerPointDefense | shadows-of-infinity/client/src/components/GameScene.tsx:206-212 | the player's PDC loop against the enemy's torpedoes; the enemy's PDCs are untouched |
| Scene.Battle.EnemyPointDefense | shadows-of-infinity/client/src/components/GameScene.tsx:214-220 | the enemy's PDC loop against the player's torpedoes; the player's PDCs are untouched |
| Scene.Battle.TorpedoPasses | shadows-of-infinity/client/src/components/GameScene.tsx:222-223 | both torpedo passes, the player's first |
| Scene.Battle.RoundPasses | shadows-of-infinity/client/src/components/GameScene.tsx:224-225 | both point-defense passes, the player's first |

## Left out

- Positions, directions, speeds and movement (`torpedoSpeed`, `pdProjectileSpeed`, `addInPlace`, `normalize`) are not modelled. The engine's `intersectsMesh` tests and the 300-unit radius test are inputs (`Sweep`), taken after the projectile has moved. So a torpedo's aim at its target and a round's direction are not modelled.
- The clock (`Date.now()`) is a parameter of each frame.
- JavaScript `number` values (health, torpedo counts, millisecond timestamps) are modelled as unbounded `int`. Nothing is lost, because these stay whole numbers far below 2^53.
- Mesh and material creation, the target sphere's animation, the GUI, the keyboard controls, the render loop and the console messages are not modelled. The game-over message is modelled by `Outcome`.
- `scene.onBeforeRenderObservable.clear()` is modelled as the `over` flag: a frame on a finished game does nothing.
- The tracked torpedo is named by slot index. Object identity beyond the slot is not modelled, because the source's checks see only the slot's visibility.
