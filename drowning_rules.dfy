/**
 * The value-level rules of the drowning system: the drowning record as a
 * value, the recomputation performed when the breathing phase flips, the
 * edge-triggered reaction to entering a block, and the per-tick evaluation.
 * The imperative members in module DrowningSystem are proved against these
 * functions.
 */
module DrowningRules {
  import opened Wrappers
  import opened JavaNumerics

  // ---------------------------------------------------------------------
  // Blocks and what an entity can breathe
  // ---------------------------------------------------------------------

  /** The block at the entity's head: the air block, the water block or any other block. */
  datatype BlockKind = Air | Water | OtherBlock

  /** ASCII upper-casing of one character. */
  function ToUpper(c: char): char
  {
    if 'a' <= c <= 'z' then (c as int - 32) as char else c
  }

  /** `String.equalsIgnoreCase` restricted to ASCII case folding. */
  predicate EqualsIgnoreCase(a: string, b: string)
  {
    |a| == |b| && forall i :: 0 <= i < |a| ==> ToUpper(a[i]) == ToUpper(b[i])
  }

  /** One entry of the `breathes` list lets the entity breathe in `block`. */
  predicate AdmitsBreathing(material: string, block: BlockKind)
  {
    (EqualsIgnoreCase(material, "Oxygen") && block == Air) ||
    (EqualsIgnoreCase(material, "Water") && block == Water)
  }

  /** Some entry of `breathes` lets the entity breathe in `block`. */
  predicate Breathable(breathes: seq<string>, block: BlockKind)
  {
    exists i :: 0 <= i < |breathes| && AdmitsBreathing(breathes[i], block)
  }

  // ---------------------------------------------------------------------
  // Configuration and the drowning record
  // ---------------------------------------------------------------------

  /** The per-entity configuration (the entity's DrownsComponent); never changed here. */
  datatype Drowns = Drowns(
    breathCapacity: int,          // milliseconds to use up a full breath
    breathRechargeRate: real,     // recharge speed relative to depletion speed
    timeBetweenDrownDamage: int,  // milliseconds between damage events
    drownDamage: int,             // damage per event
    breathes: seq<string>)        // names of the materials the entity breathes

  /** The four fields of a drowning record (the entity's DrowningComponent). */
  datatype Breath = Breath(
    isBreathing: bool,
    startTime: int,
    endTime: int,
    nextDrownDamageTime: int)

  /** A newly constructed record: `startTime == 0` marks it as fresh. */
  const Fresh: Breath := Breath(false, 0, 0, 0)

  /**
   * Every record the system produces keeps this: a breathing record is never
   * due for damage before `Long.MAX_VALUE`, and a non-breathing one is not due
   * before one damage interval after its breath runs out.
   */
  predicate Scheduled(b: Breath, drowns: Drowns)
  {
    (b.isBreathing ==> b.nextDrownDamageTime == LONG_MAX) &&
    (!b.isBreathing ==> b.nextDrownDamageTime >= b.endTime + drowns.timeBetweenDrownDamage)
  }

  // ---------------------------------------------------------------------
  // setBreathing
  // ---------------------------------------------------------------------

  /** The fraction of the new phase already done at `now`. */
  function Progress(b: Breath, isBreathing: bool, remaining: real): real
  {
    var current := if b.startTime != 0 then remaining else 1.0;
    if isBreathing then current else 1.0 - current
  }

  /** The divisor of the new phase: the recharge rate while breathing, 1 otherwise. */
  function Scale(isBreathing: bool, drowns: Drowns): real
  {
    if isBreathing then drowns.breathRechargeRate else 1.0
  }

  /**
   * `(int) (breathCapacity * fraction / scale)`: the whole milliseconds of a
   * phase of `capacity` milliseconds, slowed down by `scale`, that lie in the
   * given fraction of it.
   */
  function Share(capacity: real, fraction: real, scale: real): (r: int)
    ensures INT_MIN <= r <= INT_MAX
    ensures 0.0 <= capacity && 0.0 <= fraction && 0.0 <= scale ==> 0 <= r
    ensures 0.0 <= capacity && 0.0 <= fraction && 0.0 < scale &&
            capacity * fraction / scale < INT_MAX as real ==>
              r as real <= capacity * fraction / scale < r as real + 1.0
  {
    ProductNonNegative(capacity, fraction);
    IntCastQuotient(capacity * fraction, scale)
  }

  lemma ProductNonNegative(x: real, y: real)
    ensures 0.0 <= x && 0.0 <= y ==> 0.0 <= x * y
  {
  }

  /**
   * The record after `setBreathing(isBreathing)` at time `now`, where
   * `remaining` is what `getRemainingBreath(now)` reports for `b` (consulted
   * only when `b` is not fresh). The phase is back-dated and forward-dated
   * around `now` so that its progress at `now` continues the old phase.
   */
  function SetBreathingResult(b: Breath, isBreathing: bool, drowns: Drowns, now: Long, remaining: real): (r: Breath)
    ensures r.isBreathing == isBreathing
    ensures isBreathing ==> r.nextDrownDamageTime == LONG_MAX
    ensures !isBreathing ==> r.nextDrownDamageTime == r.endTime + drowns.timeBetweenDrownDamage
    ensures Scheduled(r, drowns)
    ensures drowns.breathCapacity >= 0 && Scale(isBreathing, drowns) >= 0.0 &&
            (b.startTime == 0 || 0.0 <= remaining <= 1.0) ==>
              r.startTime <= now <= r.endTime
  {
    var progress := Progress(b, isBreathing, remaining);
    var scale := Scale(isBreathing, drowns);
    var startTime := now - Share(drowns.breathCapacity as real, progress, scale);
    var endTime := now + Share(drowns.breathCapacity as real, 1.0 - progress, scale);
    Breath(isBreathing, startTime, endTime,
           if isBreathing then LONG_MAX else endTime + drowns.timeBetweenDrownDamage)
  }

  // ---------------------------------------------------------------------
  // onEnterBlock
  // ---------------------------------------------------------------------

  /**
   * The entity's record (None: no DrowningComponent) after it enters
   * `block`; `headLevel` says whether the block is at head height.
   */
  function EnterBlockResult(s: Option<Breath>, headLevel: bool, block: BlockKind, drowns: Drowns,
                            now: Long, remaining: real): (r: Option<Breath>)
    // the only cases in which nothing changes
    ensures r == s <==>
              !headLevel ||
              (!Breathable(drowns.breathes, block) && s.Some? && !s.value.isBreathing) ||
              (Breathable(drowns.breathes, block) && (s.None? || s.value.isBreathing))
    // a non-breathable block at head level always leaves a non-breathing record
    ensures headLevel && !Breathable(drowns.breathes, block) ==> r.Some? && !r.value.isBreathing
    // a breathable block at head level never creates a record, and leaves any record breathing
    ensures headLevel && Breathable(drowns.breathes, block) ==>
              r.Some? == s.Some? && (r.Some? ==> r.value.isBreathing)
  {
    if !headLevel then s
    else if !Breathable(drowns.breathes, block) then
      match s
      case Some(b) => if b.isBreathing then Some(SetBreathingResult(b, false, drowns, now, remaining)) else s
      case None => Some(SetBreathingResult(Fresh, false, drowns, now, remaining))
    else if s.Some? && !s.value.isBreathing then
      Some(SetBreathingResult(s.value, true, drowns, now, remaining))
    else s
  }

  // ---------------------------------------------------------------------
  // update (one entity)
  // ---------------------------------------------------------------------

  /** What one evaluation of a record does. */
  datatype Tick =
    | Remove                         // breath is full again: drop the record
    | Damage(nextDrownDamageTime: int) // damage the entity and reschedule
    | Idle                           // nothing

  /** The evaluation of record `b` at game time `now` during `update`. */
  function Evaluate(b: Breath, now: Long, drowns: Drowns): (t: Tick)
    ensures t == Remove <==> b.isBreathing && now > b.endTime
    ensures t.Damage? <==> !(b.isBreathing && now > b.endTime) && now > b.nextDrownDamageTime
    ensures t.Damage? ==> t.nextDrownDamageTime == now + drowns.timeBetweenDrownDamage
  {
    if b.isBreathing && now > b.endTime then Remove
    else if now > b.nextDrownDamageTime then Damage(now + drowns.timeBetweenDrownDamage)
    else Idle
  }

  /** The record after an evaluation; None when it was removed. */
  function Apply(b: Breath, t: Tick): Option<Breath>
  {
    match t
    case Remove => None
    case Damage(next) => Some(b.(nextDrownDamageTime := next))
    case Idle => Some(b)
  }

  /** The entity's record after one `update` pass (entities without one are skipped). */
  function TickResult(s: Option<Breath>, now: Long, drowns: Drowns): Option<Breath>
  {
    match s
    case None => None
    case Some(b) => Apply(b, Evaluate(b, now, drowns))
  }

  /** Whether one `update` pass sends a damage event to the entity. */
  predicate TickDamages(s: Option<Breath>, now: Long, drowns: Drowns)
  {
    s.Some? && Evaluate(s.value, now, drowns).Damage?
  }

  /** The damage one `update` pass sends to the entity: `drownDamage` when damage is due. */
  function DamageSent(s: Option<Breath>, now: Long, drowns: Drowns): Option<int>
  {
    if TickDamages(s, now, drowns) then Some(drowns.drownDamage) else None
  }
}
