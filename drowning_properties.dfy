/**
 * Properties of the drowning rules that relate several operations or fix
 * the numbers of particular scenarios.
 */
module DrowningProperties {
  import opened Wrappers
  import opened JavaNumerics
  import opened DrowningRules

  // ---------------------------------------------------------------------
  // setBreathing
  // ---------------------------------------------------------------------

  /**
   * A fresh record switched to non-breathing starts its phase now and runs
   * out of breath a full capacity later, whatever the remaining breath says.
   */
  lemma FreshRecordStartsFull(b: Breath, drowns: Drowns, now: Long, remaining: real)
    requires b.startTime == 0
    requires INT_MIN <= drowns.breathCapacity <= INT_MAX
    ensures SetBreathingResult(b, false, drowns, now, remaining) ==
            Breath(false, now, now + drowns.breathCapacity,
                   now + drowns.breathCapacity + drowns.timeBetweenDrownDamage)
  {
    IntCastOfInt(drowns.breathCapacity);
  }

  /** Splitting a duration `c / s` at progress `p` into the elapsed and the remaining part. */
  lemma SplitDuration(c: real, p: real, s: real)
    requires 0.0 <= c && 0.0 <= p <= 1.0 && 0.0 < s
    ensures 0.0 <= c * p / s <= c / s
    ensures 0.0 <= c * (1.0 - p) / s <= c / s
    ensures c * p / s + c * (1.0 - p) / s == c / s
  {
    var q := c / s;
    assert c == q * s;
    assert c * p / s == q * p;
    assert c * (1.0 - p) / s == q * (1.0 - p);
    ProductNonNegative(q, p);
    ProductNonNegative(q, 1.0 - p);
  }

  /** The two timestamps `setBreathing` computes, around `now`. */
  lemma SetBreathingTimes(b: Breath, isBreathing: bool, drowns: Drowns, now: Long, remaining: real)
    ensures var r := SetBreathingResult(b, isBreathing, drowns, now, remaining);
            var p := Progress(b, isBreathing, remaining);
            var s := Scale(isBreathing, drowns);
            now - r.startTime == Share(drowns.breathCapacity as real, p, s) &&
            r.endTime - now == Share(drowns.breathCapacity as real, 1.0 - p, s)
  {
  }

  /**
   * Back-dating reproduces the progress: at `now` the new phase has run for
   * the progress' share of its duration, and has the rest still to run, each
   * rounded down to a whole millisecond, as long as no cast saturates.
   */
  lemma SetBreathingContinuity(b: Breath, isBreathing: bool, drowns: Drowns, now: Long, remaining: real)
    requires b.startTime == 0 || 0.0 <= remaining <= 1.0
    requires drowns.breathCapacity >= 0 && Scale(isBreathing, drowns) > 0.0
    requires drowns.breathCapacity as real / Scale(isBreathing, drowns) < INT_MAX as real
    ensures var r := SetBreathingResult(b, isBreathing, drowns, now, remaining);
            var p := Progress(b, isBreathing, remaining);
            var duration := drowns.breathCapacity as real / Scale(isBreathing, drowns);
            var elapsed := drowns.breathCapacity as real * p / Scale(isBreathing, drowns);
            var left := drowns.breathCapacity as real * (1.0 - p) / Scale(isBreathing, drowns);
            elapsed + left == duration &&
            (now - r.startTime) as real <= elapsed < (now - r.startTime) as real + 1.0 &&
            (r.endTime - now) as real <= left < (r.endTime - now) as real + 1.0
  {
    var r := SetBreathingResult(b, isBreathing, drowns, now, remaining);
    SetBreathingTimes(b, isBreathing, drowns, now, remaining);
    ContinuityOfTimes(drowns.breathCapacity as real, Progress(b, isBreathing, remaining), Scale(isBreathing, drowns),
                      r.startTime, r.endTime, now);
  }

  /** SetBreathingContinuity for the timestamps alone. */
  lemma ContinuityOfTimes(c: real, p: real, s: real, startTime: int, endTime: int, now: int)
    requires startTime == now - Share(c, p, s) && endTime == now + Share(c, 1.0 - p, s)
    requires 0.0 <= c && 0.0 <= p <= 1.0 && 0.0 < s && c / s < INT_MAX as real
    ensures c * p / s + c * (1.0 - p) / s == c / s
    ensures (now - startTime) as real <= c * p / s < (now - startTime) as real + 1.0
    ensures (endTime - now) as real <= c * (1.0 - p) / s < (endTime - now) as real + 1.0
  {
    SplitDuration(c, p, s);
  }

  /**
   * With no breath capacity every phase is over as soon as it starts, even
   * with a recharge rate of 0 (0 / 0 is NaN, which the cast turns into 0).
   */
  lemma ZeroCapacityPhaseIsEmpty(b: Breath, isBreathing: bool, drowns: Drowns, now: Long, remaining: real)
    requires drowns.breathCapacity == 0
    ensures var r := SetBreathingResult(b, isBreathing, drowns, now, remaining);
            r.startTime == now == r.endTime
  {
    SetBreathingTimes(b, isBreathing, drowns, now, remaining);
  }

  /**
   * With a recharge rate of 0, surfacing with some breath used and some left
   * divides both shares by zero: each cast saturates, and the recharge phase
   * runs from `INT_MAX` milliseconds (about 24.8 days) before `now` to as far
   * after it.
   */
  lemma ZeroRateSaturates(b: Breath, drowns: Drowns, now: Long, remaining: real)
    requires b.startTime != 0 && 0.0 < remaining < 1.0
    requires drowns.breathCapacity > 0 && drowns.breathRechargeRate == 0.0
    ensures SetBreathingResult(b, true, drowns, now, remaining) ==
            Breath(true, now - INT_MAX, now + INT_MAX, LONG_MAX)
  {
    SetBreathingTimes(b, true, drowns, now, remaining);
    ProductPositive(drowns.breathCapacity as real, remaining);
    ProductPositive(drowns.breathCapacity as real, 1.0 - remaining);
  }

  lemma ProductPositive(x: real, y: real)
    requires 0.0 < x && 0.0 < y
    ensures 0.0 < x * y
  {
  }

  // ---------------------------------------------------------------------
  // onEnterBlock
  // ---------------------------------------------------------------------

  /**
   * onEnterBlock reacts to edges only: entering a block of the same kind a
   * second time, at any later time, changes nothing.
   */
  lemma EnterBlockIdempotent(s: Option<Breath>, headLevel: bool, block: BlockKind, drowns: Drowns,
                             now: Long, remaining: real, later: Long, laterRemaining: real)
    ensures var once := EnterBlockResult(s, headLevel, block, drowns, now, remaining);
            EnterBlockResult(once, headLevel, block, drowns, later, laterRemaining) == once
  {
  }

  /** onEnterBlock keeps the damage schedule consistent. */
  lemma EnterBlockKeepsScheduled(s: Option<Breath>, headLevel: bool, block: BlockKind, drowns: Drowns,
                                 now: Long, remaining: real)
    requires s.Some? ==> Scheduled(s.value, drowns)
    ensures var r := EnterBlockResult(s, headLevel, block, drowns, now, remaining);
            r.Some? ==> Scheduled(r.value, drowns)
  {
  }

  // ---------------------------------------------------------------------
  // update
  // ---------------------------------------------------------------------

  /** A breathing record with a consistent schedule is never damaged. */
  lemma BreathingNeverDamaged(b: Breath, now: Long, drowns: Drowns)
    requires Scheduled(b, drowns) && b.isBreathing
    ensures !Evaluate(b, now, drowns).Damage?
  {
  }

  /**
   * Damage lands only once breath has been used up for more than one
   * damage interval.
   */
  lemma NoDamageBeforeExhaustion(b: Breath, now: Long, drowns: Drowns)
    requires Scheduled(b, drowns)
    requires Evaluate(b, now, drowns).Damage?
    ensures !b.isBreathing && now > b.endTime + drowns.timeBetweenDrownDamage
  {
  }

  /** One `update` pass keeps the damage schedule consistent. */
  lemma TickKeepsScheduled(b: Breath, now: Long, drowns: Drowns)
    requires Scheduled(b, drowns) && drowns.timeBetweenDrownDamage >= 0
    ensures var r := TickResult(Some(b), now, drowns);
            r.Some? ==> Scheduled(r.value, drowns)
  {
  }

  /**
   * An `update` pass either removes a breathing record that is past its end,
   * or keeps the record with only its damage time possibly changed.
   */
  lemma TickChangesOnlyDueTime(b: Breath, now: Long, drowns: Drowns)
    ensures var r := TickResult(Some(b), now, drowns);
            (r.None? <==> b.isBreathing && now > b.endTime) &&
            (r.Some? ==> r.value.(nextDrownDamageTime := b.nextDrownDamageTime) == b) &&
            (r.Some? && r.value != b ==> TickDamages(Some(b), now, drowns))
  {
  }

  // ---------------------------------------------------------------------
  // Scenarios
  // ---------------------------------------------------------------------

  /** Capacity 10 s, recharge rate 1, a damage every 2 s of 5 points; breathes air. */
  const Diver: Drowns := Drowns(10000, 1.0, 2000, 5, ["Oxygen"])

  /**
   * Diving at time 0: no damage until breath is gone and one interval has
   * passed; the next damage is rescheduled from the current time.
   */
  lemma DiveScenario(remaining: real)
    ensures EnterBlockResult(None, true, Water, Diver, 0, remaining) == Some(Breath(false, 0, 10000, 12000))
    ensures Evaluate(Breath(false, 0, 10000, 12000), 9999, Diver) == Idle
    ensures Evaluate(Breath(false, 0, 10000, 12000), 12000, Diver) == Idle
    ensures Evaluate(Breath(false, 0, 10000, 12000), 12001, Diver) == Damage(14001)
  {
  }

  /**
   * Surfacing half-way through a dive begun at 1 ms (5000 of 10000 ms used,
   * so half the breath remains) with recharge rate 2 recharges the spent
   * half in 2.5 s.
   */
  lemma SurfaceScenario()
    ensures EnterBlockResult(Some(Breath(false, 1, 10001, 12001)), true, Air, Diver.(breathRechargeRate := 2.0), 5001, 0.5)
            == Some(Breath(true, 2501, 7501, LONG_MAX))
    ensures Evaluate(Breath(true, 2501, 7501, LONG_MAX), 7501, Diver) == Idle
    ensures Evaluate(Breath(true, 2501, 7501, LONG_MAX), 7502, Diver) == Remove
  {
    assert Breathable(Diver.breathes, Air) by { assert AdmitsBreathing(Diver.breathes[0], Air); }
  }

  /**
   * A record whose phase happens to start at game time 0 reads as fresh:
   * surfacing half-way through a dive begun at time 0 treats the breath as
   * full, so the recharge phase ends at once.
   */
  lemma ZeroStartReadsAsFresh()
    ensures EnterBlockResult(Some(Breath(false, 0, 10000, 12000)), true, Air, Diver.(breathRechargeRate := 2.0), 5000, 0.5)
            == Some(Breath(true, 0, 5000, LONG_MAX))
  {
    assert Breathable(Diver.breathes, Air) by { assert AdmitsBreathing(Diver.breathes[0], Air); }
  }
}
