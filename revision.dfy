/** The spaced-repetition revision scheduler: given an exam day, a start day, a difficulty,
    a memory strength and tuning options, the days on which to revise before the exam.

    Calendar days are integer day numbers (consecutive days differ by one). The forgetting
    curve R(t) = exp(-t / S) is solved for the day on which retention falls to the target:
    t = -S * ln(targetRetention). The logarithm is not computed here; the options carry the
    coefficient k = -ln(targetRetention) instead, so that an interval is max(1, ceil(S * k)). */
module Revision {
  import opened Wrappers
  import opened Seqs

  type Day = int

  /** The tuning options. `retentionCoefficient` is -ln(targetRetention): positive for a
      target retention in (0, 1), and larger the lower the target retention is. */
  datatype Options = Options(
    retentionCoefficient: real,
    postReviewBoost: real,
    baseStrengthDays: real,
    maxIterations: int)

  const DefaultPostReviewBoost: real := 1.8
  const DefaultBaseStrengthDays: real := 4.0
  const DefaultMaxIterations: int := 200

  /** The options a caller gets by passing none, given the coefficient that stands for the
      default target retention of 0.6 (-ln 0.6 is about 0.5108). */
  function DefaultOptions(defaultCoefficient: real): Options {
    Options(defaultCoefficient, DefaultPostReviewBoost, DefaultBaseStrengthDays, DefaultMaxIterations)
  }

  const StartAfterLastDay: string := "Start date must be on or before the day before the exam."

  /** Either the revision days or the validation error, never both. */
  datatype ScheduleResult = Dates(dates: seq<Day>) | Error(message: string)

  /** The number of revision days a result holds (none for an error). */
  function DateCount(r: ScheduleResult): nat {
    if r.Dates? then |r.dates| else 0
  }

  /** The multiplier of a difficulty label; a label outside the table counts as 1. */
  function DifficultyScale(difficulty: string): (m: real)
    ensures m > 0.0
    ensures difficulty != "easy" && difficulty != "hard" ==> m == 1.0
  {
    if difficulty == "easy" then 1.3
    else if difficulty == "medium" then 1.0
    else if difficulty == "hard" then 0.7
    else 1.0
  }

  function Max(a: real, b: real): real {
    if a >= b then a else b
  }

  /** The initial strength S: memory strength clamped below at 0.1, times the base strength in
      days, times the difficulty multiplier. */
  function InitialStrength(memoryStrength: real, baseStrengthDays: real, difficulty: string): real {
    Max(0.1, memoryStrength) * baseStrengthDays * DifficultyScale(difficulty)
  }

  /** The clamp keeps the initial strength positive whenever the base strength is, whatever the
      memory strength and the difficulty label (and zero or negative otherwise). */
  lemma InitialStrengthSign(memoryStrength: real, baseStrengthDays: real, difficulty: string)
    ensures InitialStrength(memoryStrength, baseStrengthDays, difficulty) > 0.0 <==> baseStrengthDays > 0.0
    ensures InitialStrength(memoryStrength, baseStrengthDays, difficulty) >= 0.0 <==> baseStrengthDays >= 0.0
  {
    var clamped := Max(0.1, memoryStrength);
    var scale := DifficultyScale(difficulty);
    SignOfProduct(clamped * scale, baseStrengthDays);
    assert clamped * baseStrengthDays * scale == (clamped * scale) * baseStrengthDays;
  }

  lemma SignOfProduct(p: real, b: real)
    requires p > 0.0
    ensures (p * b > 0.0 <==> b > 0.0) && (p * b >= 0.0 <==> b >= 0.0)
  {
    if b > 0.0 {
      assert p * b > 0.0;
    } else if b < 0.0 {
      assert p * (-b) > 0.0;
    }
  }

  /** The least integer not below `x`. */
  function Ceil(x: real): int {
    -((-x).Floor)
  }

  /** The number of days to the next revision when the unrounded interval -S * ln(R) is `p`:
      max(1, ceil(p)). */
  function Interval(p: real): int {
    var c := Ceil(p);
    if c > 1 then c else 1
  }

  /** An interval is at least one day, and it is the least whole number of days not below
      the unrounded interval unless that is below one day. */
  lemma IntervalBounds(p: real)
    ensures Interval(p) >= 1
    ensures p <= Interval(p) as real
    ensures Interval(p) == 1 || (Interval(p) as real) < p + 1.0
  {
  }

  /** A longer unrounded interval never gives a shorter step. */
  lemma IntervalMonotone(p: real, p': real)
    requires p <= p'
    ensures Interval(p) <= Interval(p')
  {
    IntervalBounds(p);
    IntervalBounds(p');
  }

  /** The unrounded interval -S * ln(R) for strength `s` and coefficient `k` = -ln(R). */
  function Unrounded(s: real, k: real): real {
    s * k
  }

  /** A strength, or an unrounded interval, after a review multiplies it by `boost`. */
  function Boosted(x: real, boost: real): real {
    x * boost
  }

  /** The days the stepping loop appends after `current`, the day appended last, when the
      unrounded interval is `p` (the strength S times k) and `fuel` loop iterations are left.
      Every accepted step multiplies S, and so p, by `boost`. A step that overshoots `lastDay`
      ends the loop, appending `lastDay` unless `current` is already that day. */
  function Steps(current: Day, p: real, fuel: int, lastDay: Day, boost: real): seq<Day>
    decreases fuel
  {
    if fuel <= 0 then []
    else
      var candidate := current + Interval(p);
      if candidate > lastDay then
        if current != lastDay then [lastDay] else []
      else
        [candidate] + Steps(candidate, Boosted(p, boost), fuel - 1, lastDay, boost)
  }

  function MaxInt(a: int, b: int): int {
    if a >= b then a else b
  }

  function MinInt(a: int, b: int): int {
    if a <= b then a else b
  }

  /** The loop appends at most one day per iteration. */
  lemma {:induction false} StepsLength(current: Day, p: real, fuel: int, lastDay: Day, boost: real)
    ensures |Steps(current, p, fuel, lastDay, boost)| <= MaxInt(fuel, 0)
    decreases fuel
  {
    if fuel > 0 && current + Interval(p) <= lastDay {
      StepsLength(current + Interval(p), Boosted(p, boost), fuel - 1, lastDay, boost);
    }
  }

  /** Each appended day is later than the one before it, and none is after the last
      revisable day. */
  lemma {:induction false} StepsAscending(current: Day, p: real, fuel: int, lastDay: Day, boost: real)
    requires current <= lastDay
    ensures StrictlyIncreasing([current] + Steps(current, p, fuel, lastDay, boost))
    ensures forall d :: d in Steps(current, p, fuel, lastDay, boost) ==> current < d <= lastDay
    decreases fuel
  {
    if fuel > 0 {
      IntervalBounds(p);
      var candidate := current + Interval(p);
      if candidate <= lastDay {
        var rest := Steps(candidate, Boosted(p, boost), fuel - 1, lastDay, boost);
        StepsAscending(candidate, Boosted(p, boost), fuel - 1, lastDay, boost);
        assert Steps(current, p, fuel, lastDay, boost) == [candidate] + rest;
        var tail := [candidate] + rest;
        var all := [current] + tail;
        forall i, j | 0 <= i < j < |all| ensures all[i] < all[j] {
          assert all[j] == tail[j - 1];
          if i > 0 {
            assert all[i] == tail[i - 1];
          } else {
            assert tail[j - 1] in tail;
          }
        }
      }
    }
  }

  /** The loop appends nothing exactly when it has no iterations or starts on the last
      revisable day. */
  lemma StepsEmpty(current: Day, p: real, fuel: int, lastDay: Day, boost: real)
    requires current <= lastDay
    ensures Steps(current, p, fuel, lastDay, boost) == [] <==> fuel <= 0 || current == lastDay
  {
    IntervalBounds(p);
  }

  /** The last appended day is the last revisable day unless every iteration accepted a step. */
  lemma {:induction false} StepsEndOrFull(current: Day, p: real, fuel: int, lastDay: Day, boost: real)
    ensures var ds := Steps(current, p, fuel, lastDay, boost);
            ds != [] && ds[|ds| - 1] != lastDay ==> |ds| == fuel
    decreases fuel
  {
    if fuel > 0 {
      var candidate := current + Interval(p);
      if candidate <= lastDay {
        var rest := Steps(candidate, Boosted(p, boost), fuel - 1, lastDay, boost);
        StepsEndOrFull(candidate, Boosted(p, boost), fuel - 1, lastDay, boost);
        var ds := [candidate] + rest;
        assert Steps(current, p, fuel, lastDay, boost) == ds;
        if rest != [] {
          assert ds[|ds| - 1] == rest[|rest| - 1];
        } else if fuel - 1 > 0 {
          assert candidate == lastDay by {
            IntervalBounds(Boosted(p, boost));
          }
        }
      }
    }
  }

  /** The day an absent start day defaults to is `today`. */
  function StartDay(startDate: Option<Day>, today: Day): Day {
    if startDate.Some? then startDate.value else today
  }

  /** The single-date fix-up: a schedule of one day that is not the last revisable day gets
      that day appended. */
  function FixUp(unique: seq<Day>, lastDay: Day): seq<Day> {
    if |unique| == 1 && unique[0] != lastDay then unique + [lastDay] else unique
  }

  /** The days the loop collects from initial strength `s`: the start day, then the appended days. */
  function LoopDates(start: Day, lastDay: Day, s: real, opts: Options): seq<Day> {
    [start] + Steps(start, Unrounded(s, opts.retentionCoefficient), opts.maxIterations, lastDay, opts.postReviewBoost)
  }

  /** De-duplication and sorting leave the loop's output as it is, since it is already
      strictly ascending. */
  lemma {:induction false} CleanupKeepsLoopOutput(ds: seq<Day>)
    requires StrictlyIncreasing(ds)
    ensures Sort(Dedup(ds)) == ds
  {
    assert Distinct(ds) by {
      forall i, j | 0 <= i < j < |ds| ensures ds[i] != ds[j] {
        assert ds[i] < ds[j];
      }
    }
    DedupShape(ds);
    SortSorted(ds);
  }

  /** The schedule for one request: the validation error when the start day is after the day
      before the exam (and only then), otherwise the cleaned-up loop output. */
  function RevisionDates(exam: Day, difficulty: string, memoryStrength: real,
                         startDate: Option<Day>, today: Day, opts: Options): (r: ScheduleResult)
    ensures r.Error? <==> StartDay(startDate, today) > exam - 1
    ensures r.Error? ==> r.message == StartAfterLastDay
  {
    var lastDay := exam - 1;
    var start := StartDay(startDate, today);
    if start > lastDay then Error(StartAfterLastDay)
    else
      var s := InitialStrength(memoryStrength, opts.baseStrengthDays, difficulty);
      Dates(FixUp(Sort(Dedup(LoopDates(start, lastDay, s, opts))), lastDay))
  }

  /** The unrounded first interval of a request: its initial strength times k. */
  function FirstInterval(difficulty: string, memoryStrength: real, opts: Options): real {
    Unrounded(InitialStrength(memoryStrength, opts.baseStrengthDays, difficulty), opts.retentionCoefficient)
  }

  /** With a non-negative base strength, the unrounded first interval has the sign of k. */
  lemma FirstIntervalSign(difficulty: string, memoryStrength: real, opts: Options)
    requires opts.baseStrengthDays >= 0.0
    ensures opts.retentionCoefficient <= 0.0 ==> FirstInterval(difficulty, memoryStrength, opts) <= 0.0
    ensures opts.retentionCoefficient >= 0.0 ==> FirstInterval(difficulty, memoryStrength, opts) >= 0.0
  {
    var s := InitialStrength(memoryStrength, opts.baseStrengthDays, difficulty);
    InitialStrengthSign(memoryStrength, opts.baseStrengthDays, difficulty);
    if opts.retentionCoefficient <= 0.0 {
      assert s * (-opts.retentionCoefficient) >= 0.0;
    }
  }

  /** What clean-up and the fix-up make of the loop's output: the output itself, unless it is
      the start day alone, in which case the last revisable day follows it if it differs. */
  lemma {:induction false} CleanedLoopDates(start: Day, lastDay: Day, p: real, fuel: int, boost: real)
    requires start <= lastDay
    ensures var ds := Steps(start, p, fuel, lastDay, boost);
            FixUp(Sort(Dedup([start] + ds)), lastDay)
            == if ds == [] && start != lastDay then [start, lastDay] else [start] + ds
  {
    StepsAscending(start, p, fuel, lastDay, boost);
    CleanupKeepsLoopOutput([start] + Steps(start, p, fuel, lastDay, boost));
  }

  /** For a valid request, the schedule is the loop's output itself, unless the loop produced
      the start day alone, in which case the last revisable day follows it if it differs. */
  lemma ScheduleIsLoopOutput(exam: Day, difficulty: string, memoryStrength: real,
                             startDate: Option<Day>, today: Day, opts: Options)
    requires StartDay(startDate, today) <= exam - 1
    ensures var start, lastDay := StartDay(startDate, today), exam - 1;
            var ds := Steps(start, FirstInterval(difficulty, memoryStrength, opts), opts.maxIterations,
                            lastDay, opts.postReviewBoost);
            RevisionDates(exam, difficulty, memoryStrength, startDate, today, opts)
            == Dates(if ds == [] && start != lastDay then [start, lastDay] else [start] + ds)
  {
    var start, lastDay := StartDay(startDate, today), exam - 1;
    var p := FirstInterval(difficulty, memoryStrength, opts);
    assert RevisionDates(exam, difficulty, memoryStrength, startDate, today, opts)
        == Dates(FixUp(Sort(Dedup([start] + Steps(start, p, opts.maxIterations, lastDay, opts.postReviewBoost))), lastDay));
    CleanedLoopDates(start, lastDay, p, opts.maxIterations, opts.postReviewBoost);
  }

  /** A valid request gets strictly ascending days, the first of them the start day, each of
      them between the start day and the last revisable day. */
  lemma ScheduleAscendingInRange(exam: Day, difficulty: string, memoryStrength: real,
                                 startDate: Option<Day>, today: Day, opts: Options)
    ensures var r := RevisionDates(exam, difficulty, memoryStrength, startDate, today, opts);
            r.Dates? ==> && r.dates != [] && r.dates[0] == StartDay(startDate, today)
                         && StrictlyIncreasing(r.dates)
                         && forall d :: d in r.dates ==> StartDay(startDate, today) <= d <= exam - 1
  {
    var start, lastDay := StartDay(startDate, today), exam - 1;
    if start <= lastDay {
      var p := FirstInterval(difficulty, memoryStrength, opts);
      var ds := Steps(start, p, opts.maxIterations, lastDay, opts.postReviewBoost);
      StepsAscending(start, p, opts.maxIterations, lastDay, opts.postReviewBoost);
      ScheduleIsLoopOutput(exam, difficulty, memoryStrength, startDate, today, opts);
      var dates := if ds == [] && start != lastDay then [start, lastDay] else [start] + ds;
      forall d | d in dates ensures start <= d <= lastDay {
        if d != start && d != lastDay {
          assert d in ds;
        }
      }
    }
  }

  /** Scaling the strength by the boost scales the unrounded interval by it. */
  lemma BoostScalesInterval(s: real, k: real, boost: real)
    ensures Unrounded(Boosted(s, boost), k) == Boosted(Unrounded(s, k), boost)
  {
  }

  /** The imperative algorithm: a step loop bounded by `maxIterations`, then de-duplication,
      sorting and the single-date fix-up. It computes exactly `RevisionDates`. */
  method GetRevisionDates(exam: Day, difficulty: string, memoryStrength: real,
                          startDate: Option<Day>, today: Day, opts: Options) returns (r: ScheduleResult)
    ensures r == RevisionDates(exam, difficulty, memoryStrength, startDate, today, opts)
  {
    var k, boost := opts.retentionCoefficient, opts.postReviewBoost;
    var lastDay := exam - 1;
    var start := if startDate.Some? then startDate.value else today;
    if start > lastDay {
      return Error(StartAfterLastDay);
    }
    var s := InitialStrength(memoryStrength, opts.baseStrengthDays, difficulty);
    ghost var loopDates := LoopDates(start, lastDay, s, opts);
    var dates := [start];
    var current := start;
    var iter := 0;
    while true
      invariant 0 <= iter
      invariant iter == 0 || iter <= opts.maxIterations
      invariant dates != [] && dates[|dates| - 1] == current
      invariant dates + Steps(current, Unrounded(s, k), opts.maxIterations - iter, lastDay, boost) == loopDates
      decreases opts.maxIterations - iter
    {
      ghost var fuel := opts.maxIterations - iter;
      ghost var before := dates;
      iter := iter + 1;
      if iter > opts.maxIterations {
        assert Steps(current, Unrounded(s, k), fuel, lastDay, boost) == [];
        break;
      }
      var t := Interval(Unrounded(s, k));
      var candidate := current + t;
      if candidate > lastDay {
        assert Steps(current, Unrounded(s, k), fuel, lastDay, boost) == if current != lastDay then [lastDay] else [];
        if dates[|dates| - 1] != lastDay {
          dates := dates + [lastDay];
        }
        break;
      }
      ghost var rest := Steps(candidate, Boosted(Unrounded(s, k), boost), fuel - 1, lastDay, boost);
      assert Steps(current, Unrounded(s, k), fuel, lastDay, boost) == [candidate] + rest;
      dates := dates + [candidate];
      assert before + ([candidate] + rest) == dates + rest;
      BoostScalesInterval(s, k, boost);
      s := Boosted(s, boost);
      current := candidate;
    }
    assert dates == loopDates;
    var unique := Sort(Dedup(dates));
    ghost var sorted := unique;
    if |unique| == 1 && unique[0] != lastDay {
      unique := unique + [lastDay];
    }
    assert unique == FixUp(sorted, lastDay);
    assert RevisionDates(exam, difficulty, memoryStrength, startDate, today, opts)
        == Dates(FixUp(Sort(Dedup(loopDates)), lastDay));
    return Dates(unique);
  }

  // Properties of the schedule

  /** The schedule holds at most one day more than there are loop iterations, and never more
      than two days when there are none. */
  lemma ScheduleLength(exam: Day, difficulty: string, memoryStrength: real,
                       startDate: Option<Day>, today: Day, opts: Options)
    ensures var r := RevisionDates(exam, difficulty, memoryStrength, startDate, today, opts);
            r.Dates? ==> |r.dates| <= 1 + MaxInt(1, opts.maxIterations)
  {
    var start, lastDay := StartDay(startDate, today), exam - 1;
    if start <= lastDay {
      StepsLength(start, FirstInterval(difficulty, memoryStrength, opts), opts.maxIterations, lastDay, opts.postReviewBoost);
      ScheduleIsLoopOutput(exam, difficulty, memoryStrength, startDate, today, opts);
    }
  }

  /** The schedule ends on the last revisable day unless the iteration cap stopped the loop
      after every one of its iterations had accepted a step. */
  lemma ScheduleEndsOnLastDay(exam: Day, difficulty: string, memoryStrength: real,
                              startDate: Option<Day>, today: Day, opts: Options)
    ensures var r := RevisionDates(exam, difficulty, memoryStrength, startDate, today, opts);
            r.Dates? ==> r.dates[|r.dates| - 1] == exam - 1
                         || (opts.maxIterations >= 1 && |r.dates| == opts.maxIterations + 1)
  {
    var start, lastDay := StartDay(startDate, today), exam - 1;
    if start <= lastDay {
      var p := FirstInterval(difficulty, memoryStrength, opts);
      var ds := Steps(start, p, opts.maxIterations, lastDay, opts.postReviewBoost);
      ScheduleIsLoopOutput(exam, difficulty, memoryStrength, startDate, today, opts);
      var dates := if ds == [] && start != lastDay then [start, lastDay] else [start] + ds;
      assert RevisionDates(exam, difficulty, memoryStrength, startDate, today, opts) == Dates(dates);
      if ds != [] {
        StepsEndOrFull(start, p, opts.maxIterations, lastDay, opts.postReviewBoost);
        StepsEmpty(start, p, opts.maxIterations, lastDay, opts.postReviewBoost);
        assert dates[|dates| - 1] == ds[|ds| - 1];
      }
    }
  }

  /** With the start day already the last revisable day, the schedule is that day alone. */
  lemma SingleDayRunway(exam: Day, difficulty: string, memoryStrength: real,
                        startDate: Option<Day>, today: Day, opts: Options)
    requires StartDay(startDate, today) == exam - 1
    ensures RevisionDates(exam, difficulty, memoryStrength, startDate, today, opts) == Dates([exam - 1])
  {
    StepsEmpty(exam - 1, FirstInterval(difficulty, memoryStrength, opts), opts.maxIterations, exam - 1, opts.postReviewBoost);
    ScheduleIsLoopOutput(exam, difficulty, memoryStrength, startDate, today, opts);
  }

  /** The days from `from` on, `n` of them, one day apart. */
  function Consecutive(from: Day, n: nat): seq<Day>
    decreases n
  {
    if n == 0 then [] else [from] + Consecutive(from + 1, n - 1)
  }

  /** When no unrounded interval exceeds one day (for instance k <= 0, a target retention of
      1 or more, with a non-negative strength), every step is one day, so the loop accepts a
      step per iteration until the last revisable day or the iteration cap. */
  lemma {:induction false} UnitSteps(current: Day, p: real, fuel: int, lastDay: Day, boost: real)
    requires current <= lastDay
    requires p <= 0.0 && boost >= 0.0
    ensures Steps(current, p, fuel, lastDay, boost)
         == Consecutive(current + 1, MinInt(MaxInt(fuel, 0), lastDay - current))
    decreases fuel
  {
    var ds := Steps(current, p, fuel, lastDay, boost);
    var n := MinInt(MaxInt(fuel, 0), lastDay - current);
    if fuel > 0 {
      IntervalBounds(p);
      assert Interval(p) == 1;
      if current < lastDay {
        assert Boosted(p, boost) <= 0.0 by {
          assert (-p) * boost >= 0.0;
        }
        UnitSteps(current + 1, Boosted(p, boost), fuel - 1, lastDay, boost);
        assert ds == [current + 1] + Consecutive(current + 2, n - 1);
      }
    }
  }

  /** The iteration cap at work: with one-day steps and fewer iterations than days before
      the exam, the schedule is the start day and the next `maxIterations` days, and it stops
      short of the last revisable day without an error. */
  lemma CapStopsShort(exam: Day, difficulty: string, memoryStrength: real,
                      startDate: Option<Day>, today: Day, opts: Options)
    requires opts.baseStrengthDays >= 0.0 && opts.retentionCoefficient <= 0.0 && opts.postReviewBoost >= 0.0
    requires opts.maxIterations >= 1
    requires StartDay(startDate, today) + opts.maxIterations < exam - 1
    ensures RevisionDates(exam, difficulty, memoryStrength, startDate, today, opts)
         == Dates(Consecutive(StartDay(startDate, today), opts.maxIterations + 1))
  {
    var start, lastDay := StartDay(startDate, today), exam - 1;
    var p := FirstInterval(difficulty, memoryStrength, opts);
    FirstIntervalSign(difficulty, memoryStrength, opts);
    ScheduleIsLoopOutput(exam, difficulty, memoryStrength, startDate, today, opts);
    UnitSteps(start, p, opts.maxIterations, lastDay, opts.postReviewBoost);
  }

  lemma BoostKeepsOrder(p: real, p': real, boost: real)
    requires p <= p' && boost >= 0.0
    ensures Boosted(p, boost) <= Boosted(p', boost)
  {
    assert (p' - p) * boost >= 0.0;
  }

  /** Each gap between consecutive days is no shorter than the one before it, except where
      the later day is the last revisable day (a final step cut short to land on it). */
  ghost predicate GapsWiden(ds: seq<Day>, lastDay: Day) {
    forall i :: 0 < i < |ds| - 1 ==> ds[i + 1] - ds[i] >= ds[i] - ds[i - 1] || ds[i + 1] == lastDay
  }

  /** With a non-negative unrounded interval and a boost of at least 1, every accepted review
      makes the next interval no shorter, so the gaps between revision days widen. */
  lemma {:induction false} StepsWiden(current: Day, p: real, fuel: int, lastDay: Day, boost: real)
    requires p >= 0.0 && boost >= 1.0 && current <= lastDay
    ensures GapsWiden([current] + Steps(current, p, fuel, lastDay, boost), lastDay)
    decreases fuel
  {
    if fuel > 0 {
      var candidate := current + Interval(p);
      if candidate <= lastDay {
        var pb := Boosted(p, boost);
        assert p <= pb by {
          assert p * (boost - 1.0) >= 0.0;
        }
        var tail := [candidate] + Steps(candidate, pb, fuel - 1, lastDay, boost);
        var all := [current] + tail;
        assert Steps(current, p, fuel, lastDay, boost) == tail;
        StepsWiden(candidate, pb, fuel - 1, lastDay, boost);
        forall i | 0 < i < |all| - 1 ensures all[i + 1] - all[i] >= all[i] - all[i - 1] || all[i + 1] == lastDay {
          if i == 1 {
            IntervalMonotone(p, pb);
            assert all[2] == candidate + Interval(pb) || all[2] == lastDay;
          } else {
            assert all[i + 1] == tail[i] && all[i] == tail[i - 1] && all[i - 1] == tail[i - 2];
          }
        }
      }
    }
  }

  /** Starting no earlier and with an unrounded interval no shorter, the loop appends no more
      days: each step lands no earlier than the corresponding step of the other run. */
  lemma {:induction false} StepsAntitone(c: Day, p: real, c': Day, p': real, fuel: int, lastDay: Day, boost: real)
    requires c <= c' <= lastDay
    requires p <= p' && boost >= 0.0
    ensures |Steps(c', p', fuel, lastDay, boost)| <= |Steps(c, p, fuel, lastDay, boost)|
    decreases fuel
  {
    if fuel > 0 {
      IntervalMonotone(p, p');
      var candidate, candidate' := c + Interval(p), c' + Interval(p');
      if candidate' <= lastDay {
        BoostKeepsOrder(p, p', boost);
        StepsAntitone(candidate, Boosted(p, boost), candidate', Boosted(p', boost), fuel - 1, lastDay, boost);
      }
    }
  }

  /** Two requests for the same days that share the boost and the cap: the one whose unrounded
      first interval S * k is no shorter gets no more revision days. */
  lemma LongerIntervalsFewerDates(exam: Day, startDate: Option<Day>, today: Day,
                                  difficulty: string, memoryStrength: real, opts: Options,
                                  difficulty': string, memoryStrength': real, opts': Options)
    requires opts'.postReviewBoost == opts.postReviewBoost >= 0.0
    requires opts'.maxIterations == opts.maxIterations
    requires FirstInterval(difficulty, memoryStrength, opts) <= FirstInterval(difficulty', memoryStrength', opts')
    ensures DateCount(RevisionDates(exam, difficulty', memoryStrength', startDate, today, opts'))
         <= DateCount(RevisionDates(exam, difficulty, memoryStrength, startDate, today, opts))
  {
    var start, lastDay := StartDay(startDate, today), exam - 1;
    if start <= lastDay {
      var p, p' := FirstInterval(difficulty, memoryStrength, opts), FirstInterval(difficulty', memoryStrength', opts');
      ScheduleIsLoopOutput(exam, difficulty, memoryStrength, startDate, today, opts);
      ScheduleIsLoopOutput(exam, difficulty', memoryStrength', startDate, today, opts');
      StepsAntitone(start, p, start, p', opts.maxIterations, lastDay, opts.postReviewBoost);
    }
  }

  /** Holding everything else fixed, an easier topic gets no more revision days than a
      medium one, and a medium one no more than a hard one (for a non-negative base strength,
      coefficient and boost). */
  lemma DifficultyOrdering(exam: Day, memoryStrength: real, startDate: Option<Day>, today: Day, opts: Options)
    requires opts.baseStrengthDays >= 0.0 && opts.retentionCoefficient >= 0.0 && opts.postReviewBoost >= 0.0
    ensures DateCount(RevisionDates(exam, "easy", memoryStrength, startDate, today, opts))
         <= DateCount(RevisionDates(exam, "medium", memoryStrength, startDate, today, opts))
    ensures DateCount(RevisionDates(exam, "medium", memoryStrength, startDate, today, opts))
         <= DateCount(RevisionDates(exam, "hard", memoryStrength, startDate, today, opts))
  {
    var b, k := opts.baseStrengthDays, opts.retentionCoefficient;
    var q := Max(0.1, memoryStrength) * b;
    assert q * k >= 0.0 by {
      SignOfProduct(Max(0.1, memoryStrength), b);
      assert q >= 0.0;
    }
    assert FirstInterval("hard", memoryStrength, opts) == 0.7 * (q * k);
    assert FirstInterval("medium", memoryStrength, opts) == q * k;
    assert FirstInterval("easy", memoryStrength, opts) == 1.3 * (q * k);
    LongerIntervalsFewerDates(exam, startDate, today, "medium", memoryStrength, opts, "easy", memoryStrength, opts);
    LongerIntervalsFewerDates(exam, startDate, today, "hard", memoryStrength, opts, "medium", memoryStrength, opts);
  }

  /** Holding everything else fixed, a lower target retention (a larger coefficient
      k = -ln(targetRetention)) gives no more revision days: the lower the target, the
      longer each interval. */
  lemma RetentionOrdering(exam: Day, difficulty: string, memoryStrength: real,
                          startDate: Option<Day>, today: Day, opts: Options, lowerTargetCoefficient: real)
    requires opts.baseStrengthDays >= 0.0 && opts.postReviewBoost >= 0.0
    requires opts.retentionCoefficient <= lowerTargetCoefficient
    ensures DateCount(RevisionDates(exam, difficulty, memoryStrength, startDate, today,
                                    opts.(retentionCoefficient := lowerTargetCoefficient)))
         <= DateCount(RevisionDates(exam, difficulty, memoryStrength, startDate, today, opts))
  {
    var s := InitialStrength(memoryStrength, opts.baseStrengthDays, difficulty);
    InitialStrengthSign(memoryStrength, opts.baseStrengthDays, difficulty);
    var opts' := opts.(retentionCoefficient := lowerTargetCoefficient);
    assert FirstInterval(difficulty, memoryStrength, opts) <= FirstInterval(difficulty, memoryStrength, opts') by {
      assert s * (lowerTargetCoefficient - opts.retentionCoefficient) >= 0.0;
    }
    LongerIntervalsFewerDates(exam, startDate, today, difficulty, memoryStrength, opts,
                              difficulty, memoryStrength, opts');
  }

  /** For a non-negative base strength and coefficient and a boost of at least 1, the gaps
      between a schedule's revision days never shrink, except for the step onto the day
      before the exam. */
  lemma ScheduleGapsWiden(exam: Day, difficulty: string, memoryStrength: real,
                          startDate: Option<Day>, today: Day, opts: Options)
    requires opts.baseStrengthDays >= 0.0 && opts.retentionCoefficient >= 0.0 && opts.postReviewBoost >= 1.0
    ensures var r := RevisionDates(exam, difficulty, memoryStrength, startDate, today, opts);
            r.Dates? ==> GapsWiden(r.dates, exam - 1)
  {
    var start, lastDay := StartDay(startDate, today), exam - 1;
    if start <= lastDay {
      var p := FirstInterval(difficulty, memoryStrength, opts);
      FirstIntervalSign(difficulty, memoryStrength, opts);
      ScheduleIsLoopOutput(exam, difficulty, memoryStrength, startDate, today, opts);
      StepsWiden(start, p, opts.maxIterations, lastDay, opts.postReviewBoost);
    }
  }

  /** A medium topic with memory strength 3 and the default options, starting 18 days before
      the exam (13 November for an exam on 1 December): revisions on the start day, 7 days
      later and on the day before the exam. The default coefficient -ln 0.6 lies in (0.51, 0.52). */
  lemma DefaultScenario(start: Day, k: real)
    requires 0.51 < k < 0.52
    ensures RevisionDates(start + 18, "medium", 3.0, Some(start), start, DefaultOptions(k))
         == Dates([start, start + 7, start + 17])
  {
    var opts := DefaultOptions(k);
    var lastDay := start + 17;
    var p := FirstInterval("medium", 3.0, opts);
    assert p == 12.0 * k;
    assert Interval(p) == 7 by {
      IntervalBounds(p);
    }
    assert Boosted(p, 1.8) == 21.6 * k;
    assert Interval(Boosted(p, 1.8)) == 12 by {
      IntervalBounds(Boosted(p, 1.8));
    }
    ScheduleIsLoopOutput(start + 18, "medium", 3.0, Some(start), start, opts);
    assert Steps(start, p, 200, lastDay, 1.8) == [start + 7] + Steps(start + 7, Boosted(p, 1.8), 199, lastDay, 1.8);
    assert Steps(start + 7, Boosted(p, 1.8), 199, lastDay, 1.8) == [lastDay];
  }
}
