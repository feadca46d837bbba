/** Age of an instance (`calculate_days_since_created`): whole days between
    the creation instant and "now", floored as `timedelta.days` floors,
    clamped at 0, and 0 for a missing or unparseable creation time. */
module Age {
  import opened Model

  const SecondsPerDay: int := 86400

  /** `days` of the difference `now - created`, both in seconds. For a positive
      divisor Dafny's `/` floors, as `timedelta.days` does. */
  function DaysSinceCreated(created: CreatedTime, now: int): (days: nat)
    ensures !created.At? ==> days == 0
    ensures created.At? && created.seconds <= now ==>
      days * SecondsPerDay <= now - created.seconds < (days + 1) * SecondsPerDay
    ensures created.At? && now < created.seconds ==> days == 0
  {
    match created
    case At(c) =>
      var elapsed := (now - c) / SecondsPerDay;
      if elapsed < 0 then 0 else elapsed
    case _ => 0
  }

  /** An instance created earlier is at least as old. */
  lemma OlderIsNotYounger(c1: int, c2: int, now: int)
    requires c1 <= c2
    ensures DaysSinceCreated(At(c1), now) >= DaysSinceCreated(At(c2), now)
  {
  }

  /** Age never decreases as the clock advances. */
  lemma AgeGrowsWithTime(c: int, now1: int, now2: int)
    requires now1 <= now2
    ensures DaysSinceCreated(At(c), now1) <= DaysSinceCreated(At(c), now2)
  {
  }

  /** The `min_days` threshold on ages is a threshold on elapsed seconds. */
  lemma ThresholdInSeconds(c: int, now: int, minDays: int)
    requires minDays >= 1
    ensures DaysSinceCreated(At(c), now) >= minDays <==> now - c >= minDays * SecondsPerDay
  {
    var d := DaysSinceCreated(At(c), now);
    if d >= minDays {
      assert d * SecondsPerDay >= minDays * SecondsPerDay;
    }
    if now - c >= minDays * SecondsPerDay && d < minDays {
      assert (d + 1) * SecondsPerDay <= minDays * SecondsPerDay;
    }
  }

  /** Just under a day is 0 days, exactly a day is 1, and clock skew into the future is 0. */
  lemma AgeExamples()
    ensures DaysSinceCreated(At(0), SecondsPerDay - 1) == 0
    ensures DaysSinceCreated(At(0), SecondsPerDay) == 1
    ensures DaysSinceCreated(At(1000), 10) == 0
    ensures DaysSinceCreated(Missing, 10 * SecondsPerDay) == 0
    ensures DaysSinceCreated(Unparseable, 10 * SecondsPerDay) == 0
  {
  }
}
