# Breathing: a verified model of the drowning system

This project models the breath-timing state machine of the Terasology
*Breathing* module (`DrowningSystem`). An entity that can drown carries a
configuration (its `DrownsComponent`: breath capacity, recharge rate, damage
interval, damage amount and the list of materials it breathes). While its
breath is being tracked it also carries a drowning record (its
`DrowningComponent`) with four fields: `isBreathing`, `startTime`, `endTime`
and `nextDrownDamageTime`. Breath is never stored as a percentage. It is
derived from the two timestamps that bound the current phase.

Three operations act on the record:

- `setBreathing` starts a new phase. It back-dates `startTime` and
  forward-dates `endTime` around the current game time, so that the new phase
  continues from the breath the old phase left. It sets the next damage time
  to `Long.MAX_VALUE` while breathing. While not breathing, it sets it to one
  damage interval after breath runs out.
- `onEnterBlock` reacts to a block at head level: it creates a record,
  flips its phase or leaves it alone.
- `update` runs once per frame over every entity with a record. It drops a
  breathing record whose phase has ended. Otherwise it sends one damage event
  when damage is due and reschedules the next one from the current time.

Module layout:

- `Wrappers` (`wrappers.dfy`): `Option`, used for a component that may be absent.
- `JavaNumerics` (`java_numerics.dfy`): the `int`/`long` ranges and Java's
  `(int)` cast of a float, including division by zero.
- `DrowningRules` (`drowning_rules.dfy`): the record as a value and each
  operation as a function on values. These functions are the specification.
- `DrowningProperties` (`drowning_properties.dfy`): lemmas relating the
  operations, and worked scenarios.
- `DrowningSystem` (`drowning_system.dfy`): the imperative model.
  `DrowningComponent` is a class with the four mutable fields, and `Entity` is
  a class holding its configuration and a nullable record. The handler and the
  update pass are methods that update these objects in place. Each method is
  proved equal to the matching function in `DrowningRules`.

Behaviour of the code that the model keeps as written:

- `DrowningSystem.java:81` reschedules the next damage from the current
  time, not from the previous due time. `DiveScenario` shows this: damage at
  12001 ms is rescheduled to 14001 ms.
- `DrowningSystem.java:76` checks the due time whatever the phase. A
  breathing record escapes damage only because its due time is
  `Long.MAX_VALUE` (line 150) and game time is a `long`.
  `BreathingNeverDamaged` proves this from the `Scheduled` invariant.
- `DrowningSystem.java:139` uses `startTime == 0` to mark a fresh record, so a
  phase that really started at game time 0 also reads as fresh. Surfacing at
  5000 ms from a dive begun at 0 ms then recharges from full breath, not from
  half. `ZeroStartReadsAsFresh` shows this outcome. `SurfaceScenario` shows
  the half-breath numbers for a dive begun at 1 ms.
- With a recharge rate of 0, the divisions at `DrowningSystem.java:146-147`
  are by zero. Surfacing with some breath left then gives a recharge phase
  from `INT_MAX` milliseconds (about 24.8 days) before the current time to as
  far after it (`ZeroRateSaturates`).

## Model

| member | source | states |
|---|---|---|
| `JavaNumerics.IntCast` | src/main/java/org/terasology/breathing/DrowningSystem.java:146-147 | Java's `(int)` cast: the result is within the `int` range; for a non-negative value it is the largest whole number not above it (or `INT_MAX` when saturated), and for a non-positive value the smallest not below it (or `INT_MIN`) |
| `JavaNumerics.IntCastQuotient` | src/main/java/org/terasology/breathing/DrowningSystem.java:146-147 | `(int) (x / scale)` in float arithmetic: non-negative for non-negative operands; for a positive scale it rounds the quotient down (unless saturated); division by zero gives `INT_MAX`, `INT_MIN` or 0 (+Infinity, -Infinity, NaN) |
| `DrowningRules.Share` | src/main/java/org/terasology/breathing/DrowningSystem.java:146-147 | `(int) (breathCapacity * fraction / scale)` is a non-negative `int` for non-negative inputs, and is the quotient rounded down to whole milliseconds when it is below `INT_MAX` |
| `DrowningRules.SetBreathingResult` | src/main/java/org/terasology/breathing/DrowningSystem.java:136-154 | setBreathing always sets the phase to the requested one; the due time is `Long.MAX_VALUE` when breathing and exactly `endTime + timeBetweenDrownDamage` when not; the result keeps the `Scheduled` invariant; with a non-negative capacity and scale and a remaining fraction in [0,1] (or a fresh record), `startTime <= now <= endTime` |
| `DrowningRules.EnterBlockResult` | src/main/java/org/terasology/breathing/DrowningSystem.java:88-111 | onEnterBlock leaves the record unchanged exactly when the block is not at head level, is non-breathable and the record is already non-breathing, or is breathable and there is no record or it is already breathing; a non-breathable block at head level always leaves a non-breathing record; a breathable one never creates a record and leaves any record breathing |
| `DrowningRules.Evaluate` | src/main/java/org/terasology/breathing/DrowningSystem.java:70-84 | one update step removes the record exactly when it is breathing and past `endTime`; it damages exactly when not removing and `now > nextDrownDamageTime`, and then reschedules to `now + timeBetweenDrownDamage` |
| `DrowningSystem.DrowningComponent.constructor` | src/main/java/org/terasology/breathing/DrowningSystem.java:100 | a new component holds the fresh record (`startTime == 0`) |
| `DrowningSystem.BlockIsBreathable` | src/main/java/org/terasology/breathing/DrowningSystem.java:118-134 | the search returns true exactly when some entry of `breathes` equals "Oxygen" ignoring case and the block is air, or equals "Water" ignoring case and the block is water; no such entry yields false; any other block is never breathable |
| `DrowningSystem.SetBreathing` | src/main/java/org/terasology/breathing/DrowningSystem.java:136-154 | assigning the four fields in place leaves the component holding exactly `SetBreathingResult` of its old record |
| `DrowningSystem.OnEnterBlock` | src/main/java/org/terasology/breathing/DrowningSystem.java:88-111 | the entity's record afterwards is `EnterBlockResult` of its old record; an existing component object is kept in place, and a created one is new |
| `DrowningSystem.UpdateEntity` | src/main/java/org/terasology/breathing/DrowningSystem.java:65-85 | one loop iteration leaves the entity's record at `TickResult` of the old one and sends `drownDamage` exactly when damage is due; a removed record is detached untouched, and when no damage is sent the component object is unchanged |
| `DrowningSystem.Update` | src/main/java/org/terasology/breathing/DrowningSystem.java:63-86 | the pass treats every entity independently: each entity's record afterwards is `TickResult` of its own old record, each is sent at most one damage event (exactly when due), entities without a record are untouched, and every entity either keeps its component object (updated in place) or loses it |
| `DrowningProperties.FreshRecordStartsFull` | src/main/java/org/terasology/breathing/DrowningSystem.java:139-147 | a fresh record switched to non-breathing gets `startTime == now`, `endTime == now + breathCapacity` and due time `endTime + timeBetweenDrownDamage`, whatever the remaining breath reports |
| `DrowningProperties.ContinuityOfTimes` | src/main/java/org/terasology/breathing/DrowningSystem.java:146-147 | the elapsed and remaining parts add up to the phase duration `capacity / scale`, and each timestamp lies within one millisecond of the exact real value |
| `DrowningProperties.SetBreathingContinuity` | src/main/java/org/terasology/breathing/DrowningSystem.java:139-147 | back-dating reproduces the progress at `now`: the new phase has run for the progress' share of its duration, rounded down, and has the rest to run, rounded down (given a positive scale and no saturation) |
| `DrowningProperties.ZeroCapacityPhaseIsEmpty` | src/main/java/org/terasology/breathing/DrowningSystem.java:143-147 | with zero breath capacity every new phase starts and ends at `now`, even with a zero recharge rate |
| `DrowningProperties.ZeroRateSaturates` | src/main/java/org/terasology/breathing/DrowningSystem.java:143-147 | with a zero recharge rate, surfacing with some breath used and some left gives (breathing, `now - INT_MAX`, `now + INT_MAX`, `Long.MAX_VALUE`): both casts of a division by zero saturate |
| `DrowningProperties.EnterBlockIdempotent` | src/main/java/org/terasology/breathing/DrowningSystem.java:91-109 | entering the same kind of block again, at any later time, changes nothing: the handler reacts only to edges |
| `DrowningProperties.EnterBlockKeepsScheduled` | src/main/java/org/terasology/breathing/DrowningSystem.java:93-109 | onEnterBlock preserves the `Scheduled` invariant: breathing records are due at `Long.MAX_VALUE`, non-breathing ones not before `endTime + timeBetweenDrownDamage` |
| `DrowningProperties.BreathingNeverDamaged` | src/main/java/org/terasology/breathing/DrowningSystem.java:76-81 | a breathing record keeping `Scheduled` (due at `Long.MAX_VALUE`, set at line 150) is never damaged, because game time is a `long` |
| `DrowningProperties.NoDamageBeforeExhaustion` | src/main/java/org/terasology/breathing/DrowningSystem.java:149-153 | under `Scheduled`, damage lands only on a non-breathing record and only after more than one damage interval past `endTime` |
| `DrowningProperties.TickKeepsScheduled` | src/main/java/org/terasology/breathing/DrowningSystem.java:76-82 | an update step preserves the `Scheduled` invariant (for a non-negative damage interval) |
| `DrowningProperties.TickChangesOnlyDueTime` | src/main/java/org/terasology/breathing/DrowningSystem.java:72-82 | an update step removes the record exactly when it is breathing and past `endTime`; otherwise only the due time may change, and it changes only when damage is sent |
| `DrowningProperties.DiveScenario` | src/main/java/org/terasology/breathing/DrowningSystem.java:63-111 | diving into water at 0 ms with a 10000 ms capacity and 2000 ms interval gives record (non-breathing, 0, 10000, 12000); no damage at 9999 or 12000 ms; damage at 12001 ms reschedules to 14001 ms |
| `DrowningProperties.SurfaceScenario` | src/main/java/org/terasology/breathing/DrowningSystem.java:136-154 | surfacing at 5001 ms from a dive begun at 1 ms (half the breath left) with recharge rate 2 gives record (breathing, 2501, 7501, `Long.MAX_VALUE`), which is kept at 7501 ms and removed at 7502 ms |
| `DrowningProperties.ZeroStartReadsAsFresh` | src/main/java/org/terasology/breathing/DrowningSystem.java:139 | a record whose phase started at game time 0 is treated as fresh: surfacing with half the breath left yields (breathing, 0, 5000, `Long.MAX_VALUE`), as if breath were full |

## Left out

- Entity registry plumbing (`getEntitiesWith`, `getComponent`, `addComponent`, `saveComponent`, `removeComponent`, `@In` injection): a record's presence is the nullable field `Entity.drowning`; attaching and removing are assignments to it. Every entity is assumed to carry its `DrownsComponent` and `LocationComponent`.
- `isHeadLevel`: it computes `Math.ceil` of the character's float height. The model takes its result as the boolean input `headLevel`.
- Block lookups through `BlockManager` and `CoreRegistry`: the block is an abstract `BlockKind` (the air block, the water block, any other block).
- `getRemainingBreath`: it lives in `DrowningComponent`, which is not part of this model. The model takes the value it returns at `now` as the input `remaining`. Only the bound properties assume it lies in [0,1].
- `DrowningComponent`'s field defaults: that class is not part of this model. A new component is assumed to hold Java's default values (false and 0).
- Damage delivery (`DoDamageEvent`, `getBlockEntityAt`, the damage type): `update` returns the damage amount (`drownDamage`) it would send to each entity.
- The clock: game time is the input `now`. In the source, `update` reads the clock once per entity; the model uses one `now` for the whole pass, because game time does not change within a frame.
- Float arithmetic: breath fractions and rates are exact reals, so float rounding is not modelled. Of the IEEE special values, only those from dividing by a zero scale are modelled, and negative zero is not.
- `long` overflow: timestamps in the record are unbounded integers. `now` is kept within the `long` range, but `endTime + timeBetweenDrownDamage` and `now + timeBetweenDrownDamage` are not wrapped.
- `equalsIgnoreCase`: only ASCII letters are case-folded.
- Logging and the unused `delta` argument of `update`.
- TickKeepsScheduled: assumes a non-negative damage interval. With a negative interval, rescheduling from the current time can fall below `endTime + timeBetweenDrownDamage`.
- SetBreathingContinuity: holds only for a positive scale and a phase duration below `INT_MAX` milliseconds. A saturating cast breaks the continuity.
