/**
 * The drowning system as the game runs it: the drowning record is an object
 * attached to an entity and updated in place by the block-entry handler and
 * by the per-frame update pass.
 */
module DrowningSystem {
  import opened Wrappers
  import opened JavaNumerics
  import opened DrowningRules

  /** The mutable drowning record (DrowningComponent). */
  class DrowningComponent {
    var isBreathing: bool
    var startTime: int
    var endTime: int
    var nextDrownDamageTime: int

    /** A new component: every field at its Java default. */
    constructor ()
      ensures Value() == Fresh
    {
      isBreathing, startTime, endTime, nextDrownDamageTime := false, 0, 0, 0;
    }

    /** The record's fields as a value. */
    function Value(): Breath
      reads this
    {
      Breath(isBreathing, startTime, endTime, nextDrownDamageTime)
    }
  }

  /**
   * An entity that can drown: it always carries its configuration (its
   * DrownsComponent) and carries a drowning record only while its breath is
   * being tracked.
   */
  class Entity {
    const drowns: Drowns
    var drowning: DrowningComponent?

    constructor (drowns: Drowns)
      ensures this.drowns == drowns && drowning == null
    {
      this.drowns := drowns;
      drowning := null;
    }

    /** The entity's drowning record as a value; None when it has none. */
    function State(): Option<Breath>
      reads this, drowning
    {
      if drowning == null then None else Some(drowning.Value())
    }
  }

  /** blockIsBreathable: searches the entity's `breathes` list for an entry that admits `block`. */
  method BlockIsBreathable(breathes: seq<string>, block: BlockKind) returns (r: bool)
    ensures r <==> Breathable(breathes, block)
    ensures r ==> block != OtherBlock
  {
    for i := 0 to |breathes|
      invariant forall k :: 0 <= k < i ==> !AdmitsBreathing(breathes[k], block)
    {
      var breathableMaterial := breathes[i];
      if (EqualsIgnoreCase(breathableMaterial, "Oxygen") && block == Air) ||
         (EqualsIgnoreCase(breathableMaterial, "Water") && block == Water)
      {
        return true;
      }
    }
    return false;
  }

  /**
   * setBreathing: starts a breathing or a non-breathing phase at `now`;
   * `remaining` is the record's remaining breath at `now`.
   */
  method SetBreathing(isBreathing: bool, drowning: DrowningComponent, drowns: Drowns, now: Long, remaining: real)
    modifies drowning
    ensures drowning.Value() == SetBreathingResult(old(drowning.Value()), isBreathing, drowns, now, remaining)
  {
    // a new record starts from full breath
    var currentPercentage := if drowning.startTime != 0 then remaining else 1.0;
    if !isBreathing {
      currentPercentage := 1.0 - currentPercentage;
    }
    var scale := if isBreathing then drowns.breathRechargeRate else 1.0;

    drowning.isBreathing := isBreathing;
    drowning.startTime := now - Share(drowns.breathCapacity as real, currentPercentage, scale);
    drowning.endTime := now + Share(drowns.breathCapacity as real, 1.0 - currentPercentage, scale);

    if isBreathing {
      drowning.nextDrownDamageTime := LONG_MAX;
    } else {
      drowning.nextDrownDamageTime := drowning.endTime + drowns.timeBetweenDrownDamage;
    }
  }

  /**
   * onEnterBlock: the entity entered `newBlock`; `headLevel` is whether the
   * block is at the entity's head and `remaining` the record's remaining
   * breath at `now`.
   */
  method OnEnterBlock(headLevel: bool, newBlock: BlockKind, entity: Entity, now: Long, remaining: real)
    modifies entity, entity.drowning
    ensures entity.State() == EnterBlockResult(old(entity.State()), headLevel, newBlock, entity.drowns, now, remaining)
    ensures old(entity.drowning) != null ==> entity.drowning == old(entity.drowning)
    ensures old(entity.drowning) == null && entity.drowning != null ==> fresh(entity.drowning)
  {
    if headLevel {
      var drowning := entity.drowning;
      var breathable := BlockIsBreathable(entity.drowns.breathes, newBlock);
      if !breathable {
        if drowning != null {
          if drowning.isBreathing {
            SetBreathing(false, drowning, entity.drowns, now, remaining);
          }
        } else {
          drowning := new DrowningComponent();
          SetBreathing(false, drowning, entity.drowns, now, remaining);
          entity.drowning := drowning;
        }
      } else {
        if drowning != null && !drowning.isBreathing {
          SetBreathing(true, drowning, entity.drowns, now, remaining);
        }
      }
    }
  }

  /**
   * The body of the update loop for one entity that has a drowning record:
   * removes the record once breath is full again, or else sends one damage
   * event when damage is due and reschedules it. Returns the damage sent, if any.
   */
  method UpdateEntity(entity: Entity, now: Long) returns (damage: Option<int>)
    requires entity.drowning != null
    modifies entity, entity.drowning
    ensures entity.State() == TickResult(old(entity.State()), now, entity.drowns)
    ensures damage == DamageSent(old(entity.State()), now, entity.drowns)
    ensures entity.drowning == null || entity.drowning == old(entity.drowning)
    ensures damage.None? ==> unchanged(old(entity.drowning))
  {
    var drowning := entity.drowning;
    damage := None;
    if drowning.isBreathing && now > drowning.endTime {
      entity.drowning := null;
    } else {
      if now > drowning.nextDrownDamageTime {
        damage := Some(entity.drowns.drownDamage);
        drowning.nextDrownDamageTime := now + entity.drowns.timeBetweenDrownDamage;
      }
    }
  }

  /** No two entities share an object, and no two records are shared. */
  ghost predicate Separate(entities: seq<Entity>)
    reads entities
  {
    forall i, j :: 0 <= i < j < |entities| ==>
      entities[i] != entities[j] &&
      (entities[i].drowning == null || entities[i].drowning != entities[j].drowning)
  }

  /**
   * update: one pass over the entities at game time `now`; entities without
   * a drowning record are skipped. `damage[k]` is the damage event sent to
   * entity k, if any.
   */
  method Update(entities: seq<Entity>, now: Long) returns (damage: seq<Option<int>>)
    requires Separate(entities)
    modifies set k | 0 <= k < |entities| :: entities[k]
    modifies set k | 0 <= k < |entities| && entities[k].drowning != null :: entities[k].drowning
    ensures |damage| == |entities|
    ensures forall k :: 0 <= k < |entities| ==>
              entities[k].drowning == null || entities[k].drowning == old(entities[k].drowning)
    ensures forall k :: 0 <= k < |entities| ==>
              entities[k].State() == TickResult(old(entities[k].State()), now, entities[k].drowns)
    ensures forall k :: 0 <= k < |entities| ==>
              damage[k] == DamageSent(old(entities[k].State()), now, entities[k].drowns)
  {
    damage := [];
    for i := 0 to |entities|
      invariant |damage| == i
      invariant forall k :: 0 <= k < |entities| ==>
                  entities[k].drowning == null || entities[k].drowning == old(entities[k].drowning)
      invariant forall k :: i <= k < |entities| ==>
                  entities[k].drowning == old(entities[k].drowning) &&
                  entities[k].State() == old(entities[k].State())
      invariant forall k :: 0 <= k < i ==>
                  entities[k].State() == TickResult(old(entities[k].State()), now, entities[k].drowns)
      invariant forall k :: 0 <= k < i ==>
                  damage[k] == DamageSent(old(entities[k].State()), now, entities[k].drowns)
    {
      var entity := entities[i];
      var sent := None;
      if entity.drowning != null {
        sent := UpdateEntity(entity, now);
      }
      damage := damage + [sent];
    }
  }
}
