/** The adaptive controller: hysteresis over load readings, and sampling at the current level. */
module Controller {
  import opened Wrappers
  import opened Bits

  const U32_MODULUS: nat := 0x1_0000_0000

  type u32 = n: nat | n < U32_MODULUS

  /** Quality levels as stored: 0 is Full, 4 is Minimal. */
  type Level = n: nat | n <= MINIMAL

  const FULL: nat := 0
  const MINIMAL: nat := 4

  datatype Quality = Full | High | Medium | Low | Minimal

  datatype Config = Config(highWaterMark: real, lowWaterMark: real, threshold: u32)

  datatype State = State(level: Level, hysteresis: u32, sampleCounter: u64, accepted: nat, sampledOut: nat)

  datatype Event = Observe(utilization: real) | Force(level: Level) | Offer(utilization: real)

  function FromU8(value: nat): Quality {
    match value
    case 0 => Full
    case 1 => High
    case 2 => Medium
    case 3 => Low
    case _ => Minimal
  }

  function SampleRate(q: Quality): nat {
    match q
    case Full => 1
    case High => 2
    case Medium => 4
    case Low => 8
    case Minimal => 16
  }

  function New(): State {
    State(FULL, 0, 0, 0, 0)
  }

  function Bump(n: u32): u32 {
    (n + 1) % U32_MODULUS
  }

  function Update(cfg: Config, s: State, utilization: real): State {
    if utilization > cfg.highWaterMark then
      if s.hysteresis >= cfg.threshold && s.level < MINIMAL then s.(level := s.level + 1, hysteresis := 0)
      else s.(hysteresis := Bump(s.hysteresis))
    else if utilization < cfg.lowWaterMark then
      if s.hysteresis >= cfg.threshold && s.level > FULL then s.(level := s.level - 1, hysteresis := 0)
      else s.(hysteresis := Bump(s.hysteresis))
    else s.(hysteresis := 0)
  }

  function Sample(s: State): State {
    var rate := SampleRate(FromU8(s.level));
    if rate == 1 then s.(accepted := s.accepted + 1)
    else
      var counted := s.(sampleCounter := (s.sampleCounter + 1) % WORD_MODULUS);
      if s.sampleCounter % rate == 0 then counted.(accepted := s.accepted + 1)
      else counted.(sampledOut := s.sampledOut + 1)
  }

  function Step(cfg: Config, s: State, e: Event): State {
    match e
    case Observe(u) => Update(cfg, s, u)
    case Force(level) => s.(level := level, hysteresis := 0)
    case Offer(u) => Sample(Update(cfg, s, u))
  }

  function Run(cfg: Config, s: State, events: seq<Event>): State {
    if events == [] then s
    else Step(cfg, Run(cfg, s, events[..|events| - 1]), events[|events| - 1])
  }

  // ---------- Hysteresis ----------

  /** How often the level changes along a run. */
  function Changes(cfg: Config, s: State, events: seq<Event>): nat {
    if events == [] then 0
    else
      var before := events[..|events| - 1];
      Changes(cfg, s, before) + if Run(cfg, s, events).level != Run(cfg, s, before).level then 1 else 0
  }

  predicate NoForce(events: seq<Event>) {
    forall i :: 0 <= i < |events| ==> !events[i].Force?
  }

  /** Sampling an item leaves level and hysteresis to the update made before it. */
  lemma StepUpdates(cfg: Config, s: State, e: Event)
    requires !e.Force?
    ensures Step(cfg, s, e).level == Update(cfg, s, e.utilization).level
    ensures Step(cfg, s, e).hysteresis == Update(cfg, s, e.utilization).hysteresis
  {
  }

  lemma UpdateCost(cfg: Config, s: State, utilization: real)
    ensures var s' := Update(cfg, s, utilization);
            (if s'.level != s.level then cfg.threshold + 1 else 0) + s'.hysteresis <= s.hysteresis + 1
  {
  }

  /**
   * From any state, each change of level uses up more than `threshold` updates; an update is
   * also made by every offered item.
   */
  lemma {:induction false} ChangesAreSlow(cfg: Config, s: State, events: seq<Event>)
    requires NoForce(events)
    ensures Changes(cfg, s, events) * (cfg.threshold + 1) + Run(cfg, s, events).hysteresis
            <= s.hysteresis + |events|
  {
    if events != [] {
      var before, e := events[..|events| - 1], events[|events| - 1];
      var s0, s1 := Run(cfg, s, before), Run(cfg, s, events);
      ChangesAreSlow(cfg, s, before);
      StepUpdates(cfg, s0, e);
      UpdateCost(cfg, s0, e.utilization);
      SuccTimes(Changes(cfg, s, before), cfg.threshold + 1);
      if s1.level == s0.level {
        assert Changes(cfg, s, events) == Changes(cfg, s, before);
      } else {
        assert Changes(cfg, s, events) == Changes(cfg, s, before) + 1;
      }
    }
  }

  lemma SuccTimes(n: int, t: int)
    ensures (n + 1) * t == n * t + t
  {
  }

  predicate AllHigh(cfg: Config, events: seq<Event>) {
    forall i :: 0 <= i < |events| ==> !events[i].Force? && events[i].utilization > cfg.highWaterMark
  }

  predicate AllLow(cfg: Config, events: seq<Event>) {
    forall i :: 0 <= i < |events| ==> !events[i].Force? && events[i].utilization < cfg.lowWaterMark
  }

  /** Under steady load, `n` updates have moved the level by `moved` steps and left `hysteresis`. */
  predicate OnTheWay(cfg: Config, n: nat, moved: nat, hysteresis: nat) {
    n <= moved * (cfg.threshold + 1) + hysteresis && (n > 0 ==> hysteresis <= cfg.threshold)
  }

  /** One more update towards a level that is not reached yet. */
  lemma OneMoreUpdate(cfg: Config, n: nat, moved: nat, hysteresis: u32)
    requires OnTheWay(cfg, n, moved, hysteresis)
    ensures if hysteresis >= cfg.threshold then OnTheWay(cfg, n + 1, moved + 1, 0)
            else OnTheWay(cfg, n + 1, moved, Bump(hysteresis))
  {
    SuccTimes(moved, cfg.threshold + 1);
  }

  /** Where `n` updates under steady overload have brought the controller. */
  predicate Degraded(cfg: Config, s: State, n: nat, s': State) {
    s'.level == MINIMAL || (s'.level >= s.level && OnTheWay(cfg, n, s'.level - s.level, s'.hysteresis))
  }

  /** Where `n` updates under steady low load have brought the controller. */
  predicate Recovered(cfg: Config, s: State, n: nat, s': State) {
    s'.level == FULL || (s'.level <= s.level && OnTheWay(cfg, n, s.level - s'.level, s'.hysteresis))
  }

  lemma DegradeStep(cfg: Config, s: State, n: nat, s0: State, s1: State, utilization: real)
    requires Degraded(cfg, s, n, s0) && utilization > cfg.highWaterMark
    requires s1.level == Update(cfg, s0, utilization).level
    requires s1.hysteresis == Update(cfg, s0, utilization).hysteresis
    ensures Degraded(cfg, s, n + 1, s1)
  {
    if s0.level < MINIMAL {
      OneMoreUpdate(cfg, n, s0.level - s.level, s0.hysteresis);
    }
  }

  lemma RecoverStep(cfg: Config, s: State, n: nat, s0: State, s1: State, utilization: real)
    requires Recovered(cfg, s, n, s0) && utilization < cfg.lowWaterMark < cfg.highWaterMark
    requires s1.level == Update(cfg, s0, utilization).level
    requires s1.hysteresis == Update(cfg, s0, utilization).hysteresis
    ensures Recovered(cfg, s, n + 1, s1)
  {
    if s0.level > FULL {
      OneMoreUpdate(cfg, n, s.level - s0.level, s0.hysteresis);
    }
  }

  /** Under steady overload every update makes progress towards the lowest level. */
  lemma {:induction false} OverloadProgress(cfg: Config, s: State, events: seq<Event>)
    requires AllHigh(cfg, events)
    ensures Degraded(cfg, s, |events|, Run(cfg, s, events))
  {
    if events != [] {
      var before, e := events[..|events| - 1], events[|events| - 1];
      var s0 := Run(cfg, s, before);
      OverloadProgress(cfg, s, before);
      StepUpdates(cfg, s0, e);
      DegradeStep(cfg, s, |before|, s0, Run(cfg, s, events), e.utilization);
    }
  }

  /** Under steady low load every update makes progress towards full quality. */
  lemma {:induction false} RecoveryProgress(cfg: Config, s: State, events: seq<Event>)
    requires AllLow(cfg, events) && cfg.lowWaterMark < cfg.highWaterMark
    ensures Recovered(cfg, s, |events|, Run(cfg, s, events))
  {
    if events != [] {
      var before, e := events[..|events| - 1], events[|events| - 1];
      var s0 := Run(cfg, s, before);
      RecoveryProgress(cfg, s, before);
      StepUpdates(cfg, s0, e);
      RecoverStep(cfg, s, |before|, s0, Run(cfg, s, events), e.utilization);
    }
  }

  lemma FourStepsAtLeast(cfg: Config, n: nat, moved: nat, hysteresis: nat)
    requires OnTheWay(cfg, n, moved, hysteresis) && n >= 4 * (cfg.threshold + 1)
    ensures moved >= 4
  {
    assert moved <= 3 ==> moved * (cfg.threshold + 1) <= 3 * (cfg.threshold + 1);
  }

  /** 4 * (threshold + 1) consecutive updates above the high mark reach Minimal from any state. */
  lemma OverloadReachesMinimal(cfg: Config, s: State, events: seq<Event>)
    requires AllHigh(cfg, events) && |events| >= 4 * (cfg.threshold + 1)
    ensures Run(cfg, s, events).level == MINIMAL
  {
    var s' := Run(cfg, s, events);
    OverloadProgress(cfg, s, events);
    var moved := s'.level - s.level;
    if moved >= 0 && OnTheWay(cfg, |events|, moved, s'.hysteresis) {
      FourStepsAtLeast(cfg, |events|, moved, s'.hysteresis);
    }
  }

  /** 4 * (threshold + 1) consecutive updates below the low mark reach Full from any state. */
  lemma RecoveryReachesFull(cfg: Config, s: State, events: seq<Event>)
    requires AllLow(cfg, events) && |events| >= 4 * (cfg.threshold + 1)
    requires cfg.lowWaterMark < cfg.highWaterMark
    ensures Run(cfg, s, events).level == FULL
  {
    var s' := Run(cfg, s, events);
    RecoveryProgress(cfg, s, events);
    var moved := s.level - s'.level;
    if moved >= 0 && OnTheWay(cfg, |events|, moved, s'.hysteresis) {
      FourStepsAtLeast(cfg, |events|, moved, s'.hysteresis);
    }
  }

  /** Every reading is outside the band between the two marks. */
  predicate OutOfBand(cfg: Config, events: seq<Event>) {
    forall i :: 0 <= i < |events| ==>
      !events[i].Force? && (events[i].utilization > cfg.highWaterMark || events[i].utilization < cfg.lowWaterMark)
  }

  lemma {:induction false} CountsUp(cfg: Config, s: State, events: seq<Event>)
    requires OutOfBand(cfg, events) && s.hysteresis == 0 && |events| <= cfg.threshold
    ensures Run(cfg, s, events).level == s.level && Run(cfg, s, events).hysteresis == |events|
  {
    if events != [] {
      var before, e := events[..|events| - 1], events[|events| - 1];
      var s0 := Run(cfg, s, before);
      CountsUp(cfg, s, before);
      assert s0.level == s.level && s0.hysteresis == |before|;
      StepUpdates(cfg, s0, e);
      assert Update(cfg, s0, e.utilization) == s0.(hysteresis := |events|);
    }
  }

  /**
   * The counter is shared by both directions: after any mix of threshold + 1 readings outside
   * the band, a level with room on both sides moves by one, the way the last reading points.
   */
  lemma LastReadingDecides(cfg: Config, s: State, events: seq<Event>)
    requires OutOfBand(cfg, events) && |events| == cfg.threshold + 1
    requires s.hysteresis == 0 && FULL < s.level < MINIMAL
    ensures Run(cfg, s, events).level ==
            if events[cfg.threshold].utilization > cfg.highWaterMark then s.level + 1 else s.level - 1
  {
    var before := events[..cfg.threshold];
    CountsUp(cfg, s, before);
    StepUpdates(cfg, Run(cfg, s, before), events[cfg.threshold]);
  }

  predicate IsOutOfBand(cfg: Config, e: Event) {
    !e.Force? && (e.utilization > cfg.highWaterMark || e.utilization < cfg.lowWaterMark)
  }

  /** How many readings at the end of the events are outside of the band, with no forcing in between. */
  function Streak(cfg: Config, events: seq<Event>): nat {
    if events != [] && IsOutOfBand(cfg, events[|events| - 1]) then Streak(cfg, events[..|events| - 1]) + 1 else 0
  }

  lemma {:induction false} StreakIs(cfg: Config, events: seq<Event>)
    ensures Streak(cfg, events) <= |events|
    ensures forall i :: |events| - Streak(cfg, events) <= i < |events| ==> IsOutOfBand(cfg, events[i])
  {
    if events != [] && IsOutOfBand(cfg, events[|events| - 1]) {
      StreakIs(cfg, events[..|events| - 1]);
    }
  }

  /** The counter counts no more than the streak, with what it had at the start if the streak goes back that far. */
  lemma {:induction false} CounterWithinStreak(cfg: Config, s: State, events: seq<Event>)
    ensures Run(cfg, s, events).hysteresis
            <= Streak(cfg, events) + if Streak(cfg, events) == |events| then s.hysteresis else 0
  {
    if events != [] {
      var before, e := events[..|events| - 1], events[|events| - 1];
      var s0 := Run(cfg, s, before);
      CounterWithinStreak(cfg, s, before);
      if !e.Force? {
        StepUpdates(cfg, s0, e);
        CounterStep(cfg, s0, e.utilization);
      }
    }
  }

  lemma CounterStep(cfg: Config, s: State, utilization: real)
    ensures Update(cfg, s, utilization).hysteresis <= s.hysteresis + 1
    ensures cfg.lowWaterMark <= utilization <= cfg.highWaterMark ==> Update(cfg, s, utilization) == s.(hysteresis := 0)
  {
  }

  /**
   * Hysteresis: unless it is forced, the level changes only at the end of more than `threshold`
   * consecutive readings outside of the band, from a fresh counter; a single reading inside the
   * band starts the count again.
   */
  lemma ChangeNeedsStreak(cfg: Config, s: State, events: seq<Event>)
    requires events != [] && !events[|events| - 1].Force? && s.hysteresis == 0
    requires Run(cfg, s, events).level != Run(cfg, s, events[..|events| - 1]).level
    ensures |events| > cfg.threshold
    ensures forall i :: |events| - 1 - cfg.threshold <= i < |events| ==> IsOutOfBand(cfg, events[i])
  {
    var before, e := events[..|events| - 1], events[|events| - 1];
    var s0 := Run(cfg, s, before);
    StepUpdates(cfg, s0, e);
    CounterWithinStreak(cfg, s, before);
    assert s0.hysteresis >= cfg.threshold;
    StreakIs(cfg, before);
    StreakIs(cfg, events);
    assert Streak(cfg, events) == Streak(cfg, before) + 1;
  }

  // ---------- Sampling ----------

  function Offers(events: seq<Event>): nat {
    if events == [] then 0
    else Offers(events[..|events| - 1]) + if events[|events| - 1].Offer? then 1 else 0
  }

  /** The multiples of `rate` among 0, ..., n - 1. */
  function Multiples(n: nat, rate: nat): nat
    requires rate > 0
  {
    if n == 0 then 0 else Multiples(n - 1, rate) + if (n - 1) % rate == 0 then 1 else 0
  }

  lemma {:induction false} MultiplesOf16(n: nat)
    ensures Multiples(n, 16) == (n + 15) / 16
  {
    if n > 0 {
      MultiplesOf16(n - 1);
    }
  }

  lemma ModOfMultiple(n: nat, d: nat, k: nat)
    requires d > 0 && k > 0 && d * k > 0
    ensures (n % (d * k)) % d == n % d
  {
    var q, m := n / (d * k), n % (d * k);
    assert n == (d * k) * q + m;
    assert n == d * (k * q + m / d) + m % d by {
      assert m == d * (m / d) + m % d;
      assert (d * k) * q == d * (k * q);
    }
    ModUnique(n, d, k * q + m / d, m % d);
  }

  /** Every sampling rate divides both 16 and the range of the sample counter. */
  lemma RateDivides(level: Level)
    returns (k: nat, l: nat)
    ensures var rate := SampleRate(FromU8(level));
            k > 0 && l > 0 && rate * k == 16 && rate * l == WORD_MODULUS
  {
    match FromU8(level)
    case Full => k, l := 16, 0x1_0000_0000_0000_0000;
    case High => k, l := 8, 0x8000_0000_0000_0000;
    case Medium => k, l := 4, 0x4000_0000_0000_0000;
    case Low => k, l := 2, 0x2000_0000_0000_0000;
    case Minimal => k, l := 1, 0x1000_0000_0000_0000;
  }

  /** The wrapping of the sample counter never shows, and multiples of 16 pass at every rate. */
  lemma RateSeesThrough(level: Level, n: nat)
    ensures (n % WORD_MODULUS) % SampleRate(FromU8(level)) == n % SampleRate(FromU8(level))
    ensures n % 16 == 0 ==> n % SampleRate(FromU8(level)) == 0
  {
    var rate := SampleRate(FromU8(level));
    var k, l := RateDivides(level);
    ModOfMultiple(n, rate, l);
    ModOfMultiple(n, rate, k);
    ModUnique(0, rate, 0, 0);
  }

  /** The rates in numbers: one in 1, 2, 4, 8 and 16. */
  lemma RateIs(level: Level)
    ensures SampleRate(FromU8(level)) == Pow2(level)
  {
    assert Pow2(2) == 4 && Pow2(4) == 16;
  }

  /** What one sampling decision does to the counters. */
  lemma SampleStep(s: State, counter: nat)
    requires s.sampleCounter == counter % WORD_MODULUS
    ensures var rate, s' := SampleRate(FromU8(s.level)), Sample(s);
            && s'.level == s.level
            && s'.accepted + s'.sampledOut == s.accepted + s.sampledOut + 1
            && (rate == 1 ==> s' == s.(accepted := s.accepted + 1))
            && (rate != 1 ==> s'.sampleCounter == (counter + 1) % WORD_MODULUS)
            && (rate != 1 ==> s'.accepted == s.accepted + if counter % rate == 0 then 1 else 0)
            && (counter % 16 == 0 ==> s'.accepted == s.accepted + 1)
            && s'.accepted >= s.accepted
  {
    RateSeesThrough(s.level, counter);
    ModSucc(counter, WORD_MODULUS);
  }

  /** `counter` is the sample counter with its wrapping undone; `direct` counts accepts at Full. */
  predicate SamplingBooks(s: State, s': State, offers: nat, counter: nat, direct: nat) {
    && counter == s.sampleCounter + offers - direct
    && s'.sampleCounter == counter % WORD_MODULUS
    && s'.accepted + s'.sampledOut == s.accepted + s.sampledOut + offers
    && s'.accepted >= s.accepted + direct + Multiples(counter, 16) - Multiples(s.sampleCounter, 16)
  }

  lemma OfferKeepsBooks(cfg: Config, s: State, s0: State, e: Event, offers: nat, counter: nat, direct: nat)
    returns (counter': nat, direct': nat)
    requires SamplingBooks(s, s0, offers, counter, direct) && e.Offer?
    ensures SamplingBooks(s, Step(cfg, s0, e), offers + 1, counter', direct')
  {
    var s1 := Update(cfg, s0, e.utilization);
    SampleStep(s1, counter);
    if SampleRate(FromU8(s1.level)) == 1 {
      counter', direct' := counter, direct + 1;
    } else {
      counter', direct' := counter + 1, direct;
    }
  }

  lemma {:induction false} SamplingBound(cfg: Config, s: State, events: seq<Event>)
    returns (counter: nat, direct: nat)
    ensures SamplingBooks(s, Run(cfg, s, events), Offers(events), counter, direct)
  {
    if events == [] {
      counter, direct := s.sampleCounter, 0;
    } else {
      var before, e := events[..|events| - 1], events[|events| - 1];
      counter, direct := SamplingBound(cfg, s, before);
      if e.Offer? {
        counter, direct := OfferKeepsBooks(cfg, s, Run(cfg, s, before), e, Offers(before), counter, direct);
      }
    }
  }

  /**
   * Across any changes of level, forced or not, from any state: of the items offered at least
   * every sixteenth is accepted, and each is either accepted or counted as sampled out.
   */
  lemma EverySixteenthIsAccepted(cfg: Config, s: State, events: seq<Event>)
    ensures Run(cfg, s, events).accepted - s.accepted >= Offers(events) / 16
    ensures (Run(cfg, s, events).accepted - s.accepted) + (Run(cfg, s, events).sampledOut - s.sampledOut)
            == Offers(events)
  {
    var counter, direct := SamplingBound(cfg, s, events);
    MultiplesOf16(counter);
    MultiplesOf16(s.sampleCounter);
  }

  predicate StaysAt(cfg: Config, s: State, events: seq<Event>, level: Level) {
    events == [] ||
    (StaysAt(cfg, s, events[..|events| - 1], level) && Run(cfg, s, events).level == level)
  }

  /** While the level stays put, exactly the multiples of its rate are accepted. */
  lemma {:induction false} SteadyRunAccepts(cfg: Config, s: State, events: seq<Event>, level: Level)
    requires StaysAt(cfg, s, events, level) && level != FULL
    ensures var n, rate, s' := s.sampleCounter, SampleRate(FromU8(level)), Run(cfg, s, events);
            && s'.sampleCounter == (n + Offers(events)) % WORD_MODULUS
            && s'.accepted == s.accepted + Multiples(n + Offers(events), rate) - Multiples(n, rate)
  {
    if events != [] {
      var before, e := events[..|events| - 1], events[|events| - 1];
      var s0, counter := Run(cfg, s, before), s.sampleCounter + Offers(before);
      SteadyRunAccepts(cfg, s, before, level);
      if e.Offer? {
        var updated := Update(cfg, s0, e.utilization);
        assert updated.sampleCounter == s0.sampleCounter && updated.accepted == s0.accepted;
        SampleStep(updated, counter);
        assert Run(cfg, s, events) == Sample(updated);
        assert updated.level == level;
        assert s.sampleCounter + Offers(events) == counter + 1;
      } else {
        assert Offers(events) == Offers(before);
      }
    }
  }

  lemma {:induction false} MultiplesShare(n: nat, level: Level)
    ensures var rate := SampleRate(FromU8(level)); n <= Multiples(n, rate) * rate < n + rate
  {
    if n > 0 {
      MultiplesShare(n - 1, level);
      NextMultiple(n - 1, Multiples(n - 1, SampleRate(FromU8(level))), SampleRate(FromU8(level)));
    }
  }

  lemma NextMultiple(n: nat, m: nat, rate: nat)
    requires rate > 0 && n <= m * rate < n + rate
    ensures n + 1 <= (if n % rate == 0 then m + 1 else m) * rate < n + 1 + rate
  {
    var gap := m * rate - n;
    if gap == 0 {
      ModUnique(n, rate, m, 0);
    } else {
      assert n == rate * (m - 1) + (rate - gap);
      ModUnique(n, rate, m - 1, rate - gap);
    }
    assert (m + 1) * rate == m * rate + rate;
  }

  /** At full quality every item is accepted. */
  lemma {:induction false} FullAcceptsAll(cfg: Config, s: State, events: seq<Event>)
    requires StaysAt(cfg, s, events, FULL)
    ensures Run(cfg, s, events).accepted == s.accepted + Offers(events)
  {
    if events != [] {
      var before, e := events[..|events| - 1], events[|events| - 1];
      FullAcceptsAll(cfg, s, before);
      if e.Offer? {
        var updated := Update(cfg, Run(cfg, s, before), e.utilization);
        assert Run(cfg, s, events) == Sample(updated) && updated.level == FULL;
      }
    }
  }

  /**
   * While the level stays at `level`, from 0 for full quality to 4, the items accepted are one in
   * 2^level of those offered, within one.
   */
  lemma SteadyShare(cfg: Config, s: State, events: seq<Event>, level: Level)
    requires StaysAt(cfg, s, events, level)
    ensures Offers(events) - Pow2(level) < (Run(cfg, s, events).accepted - s.accepted) * Pow2(level)
            < Offers(events) + Pow2(level)
  {
    RateIs(level);
    if level == FULL {
      FullAcceptsAll(cfg, s, events);
    } else {
      SampledShare(cfg, s, events, level);
    }
  }

  lemma SampledShare(cfg: Config, s: State, events: seq<Event>, level: Level)
    requires StaysAt(cfg, s, events, level) && level != FULL
    ensures var rate := SampleRate(FromU8(level));
            Offers(events) - rate < (Run(cfg, s, events).accepted - s.accepted) * rate < Offers(events) + rate
  {
    SteadyRunAccepts(cfg, s, events, level);
    var rate := SampleRate(FromU8(level));
    var n, m := s.sampleCounter, s.sampleCounter + Offers(events);
    MultiplesShare(n, level);
    MultiplesShare(m, level);
    assert (Multiples(m, rate) - Multiples(n, rate)) * rate == Multiples(m, rate) * rate - Multiples(n, rate) * rate;
  }

  // ---------- The class ----------

  class AdaptiveController {
    const config: Config
    var qualityLevel: Level
    var sampleCounter: u64
    var hysteresisCounter: u32
    var accepted: nat
    var sampledOut: nat

    ghost function View(): State
      reads this
    {
      State(qualityLevel, hysteresisCounter, sampleCounter, accepted, sampledOut)
    }

    constructor (config: Config)
      requires config.lowWaterMark < config.highWaterMark
      ensures this.config == config && View() == New()
    {
      this.config := config;
      qualityLevel, sampleCounter, hysteresisCounter, accepted, sampledOut := FULL, 0, 0, 0, 0;
    }

    method UpdateLevel(utilization: real)
      modifies this`qualityLevel, this`hysteresisCounter
      ensures View() == Update(config, old(View()), utilization)
    {
      var current := qualityLevel;
      if utilization > config.highWaterMark {
        var counter := hysteresisCounter;
        hysteresisCounter := Bump(hysteresisCounter);
        if counter >= config.threshold && current < MINIMAL {
          qualityLevel := current + 1;
          hysteresisCounter := 0;
        }
      } else if utilization < config.lowWaterMark {
        var counter := hysteresisCounter;
        hysteresisCounter := Bump(hysteresisCounter);
        if counter >= config.threshold && current > FULL {
          qualityLevel := current - 1;
          hysteresisCounter := 0;
        }
      } else {
        hysteresisCounter := 0;
      }
    }

    method ShouldAccept(utilization: real) returns (accept: bool)
      modifies this
      ensures View() == Step(config, old(View()), Offer(utilization))
      ensures accepted == old(accepted) + if accept then 1 else 0
      ensures accept <==> old(sampleCounter) % Pow2(qualityLevel) == 0
    {
      UpdateLevel(utilization);
      var rate := SampleRate(FromU8(qualityLevel));
      RateIs(qualityLevel);
      if rate == 1 {
        accepted := accepted + 1;
        return true;
      }
      var count := sampleCounter;
      sampleCounter := (sampleCounter + 1) % WORD_MODULUS;
      accept := count % rate == 0;
      if accept {
        accepted := accepted + 1;
      } else {
        sampledOut := sampledOut + 1;
      }
    }

    method SetQuality(level: Level)
      modifies this
      ensures View() == Step(config, old(View()), Force(level))
      ensures qualityLevel == level && hysteresisCounter == 0
      ensures sampleCounter == old(sampleCounter) && accepted == old(accepted) && sampledOut == old(sampledOut)
    {
      qualityLevel := level;
      hysteresisCounter := 0;
    }

    method Reset()
      modifies this
      ensures View() == New() == State(FULL, 0, 0, 0, 0)
    {
      qualityLevel := FULL;
      sampleCounter := 0;
      hysteresisCounter := 0;
      accepted, sampledOut := 0, 0;
    }
  }
}
