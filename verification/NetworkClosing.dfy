/** Closing the input brings every worker to an end, and a fair run to its full output. */
module NetworkClosing {
  import opened Stages
  import opened Network
  import opened NetworkControl
  import opened NetworkMeaning

  // ---------- One worker behind a dropped sender ----------

  /** At most how many steps a worker makes before it has stopped or received once more. */
  function Rank<T>(pc: Pc<T>): nat {
    match pc
    case Stopped => 0
    case LeftOutput => 1
    case Leaving => 2
    case Receive => 3
    case ClearingPaused => 4
    case StoringRun => 5
    case Resetting => 6
    case CheckCommand => 7
    case CheckPaused => 8
    case CheckShutdown => 9
    case CountOutput => 10
    case CountDropped => 10
    case CountFiltered => 10
    case Sending(_) => 11
    case InHand(_) => 12
    case Noting(_) => 13
  }

  function StepsLeft<S, T>(s: State<S, T>, i: nat): nat
    requires i < |s.workers| && i < |s.queues|
  {
    11 * |s.queues[i]| + Rank(s.workers[i].pc)
  }

  /** Nothing more will be sent to worker `i`, and it is not paused. */
  predicate CutOff<S, T>(s: State<S, T>, i: nat)
    requires i < |s.workers|
  {
    !SenderAlive(s, i) && !s.workers[i].flags.paused
  }

  predicate Pauses<T>(a: Action<T>) {
    a.FinishCommand? && a.command.Pause?
  }

  /** No pause command is completed in the run; all others may be. */
  predicate NoPause<T>(run: seq<Action<T>>) {
    forall k :: 0 <= k < |run| ==> !Pauses(run[k])
  }

  lemma LocalRank<S, T>(stage: Stage<S, T, T>, w: Worker<S, T>)
    requires !w.flags.paused && !w.pc.Receive? && !w.pc.Sending? && !w.pc.InHand? && !w.pc.Stopped?
    ensures Rank(Local(stage, w).pc) < Rank(w.pc)
  {
  }

  lemma LocalUnpaused<S, T>(stage: Stage<S, T, T>, w: Worker<S, T>)
    ensures !w.flags.paused ==> !Local(stage, w).flags.paused
  {
  }

  lemma StaysUnpaused<S, T>(cfg: Config<S, T>, s: State<S, T>, a: Action<T>, i: nat)
    requires Enabled(cfg, s, a) && i < |s.workers| && !s.workers[i].flags.paused && !Pauses(a)
    ensures !Step(cfg, s, a).workers[i].flags.paused
  {
    var w := s.workers[i];
    match a
    case Work(_) => LocalUnpaused(cfg.stages[i], w);
    case BeginCommand(j, c) =>
      assert Step(cfg, s, a).workers[i] == if j == i then Begun(w, c) else w;
    case FinishCommand(j, c) =>
      assert !C.Apply(w.flags, C.StoreFlag(c)).paused;
      assert Step(cfg, s, a).workers[i] == if j == i then Finished(w, c) else w;
    case _ => assert Step(cfg, s, a).workers[i] == w;
  }

  lemma MovedRank<S, T>(cfg: Config<S, T>, s: State<S, T>, i: nat)
    requires Enabled(cfg, s, Work(i)) && CutOff(s, i)
    ensures Shape(cfg, Step(cfg, s, Work(i)))
    ensures StepsLeft(Step(cfg, s, Work(i)), i) < StepsLeft(s, i)
  {
    var w := s.workers[i];
    DeadLinkOnlyShrinks(cfg, s, Work(i), i);
    if !w.pc.Receive? && !w.pc.Sending? && !w.pc.InHand? {
      LocalRank(cfg.stages[i], w);
    }
  }

  lemma CutOffStep<S, T>(cfg: Config<S, T>, s: State<S, T>, a: Action<T>, i: nat)
    requires Enabled(cfg, s, a) && i < |s.workers| && CutOff(s, i) && !Pauses(a)
    ensures Shape(cfg, Step(cfg, s, a)) && CutOff(Step(cfg, s, a), i)
    ensures StepsLeft(Step(cfg, s, a), i) + One(a == Work(i)) <= StepsLeft(s, i)
  {
    DeadSenderStays(cfg, s, a, i);
    StaysUnpaused(cfg, s, a, i);
    if a == Work(i) {
      MovedRank(cfg, s, i);
    } else {
      DeadLinkOnlyShrinks(cfg, s, a, i);
      OthersLeaveWorker(cfg, s, a, i);
    }
  }

  lemma {:induction false} StoppedStays<S, T>(cfg: Config<S, T>, s: State<S, T>, run: seq<Action<T>>, i: nat)
    requires Shape(cfg, s) && IsRun(cfg, s, run) && i < |s.workers| && s.workers[i].pc.Stopped?
    ensures Shape(cfg, After(cfg, s, run)) && After(cfg, s, run).workers[i].pc.Stopped?
  {
    if run != [] {
      var before, a := run[..|run| - 1], run[|run| - 1];
      StoppedStays(cfg, s, before, i);
      OthersLeaveWorker(cfg, After(cfg, s, before), a, i);
    }
  }

  lemma {:induction false} CutOffRun<S, T>(cfg: Config<S, T>, s: State<S, T>, run: seq<Action<T>>, i: nat)
    requires Shape(cfg, s) && IsRun(cfg, s, run) && i < |s.workers| && CutOff(s, i) && NoPause(run)
    ensures var s' := After(cfg, s, run);
            Shape(cfg, s') && CutOff(s', i) && StepsOf(run, i) + StepsLeft(s', i) <= StepsLeft(s, i)
  {
    if run != [] {
      var before, a := run[..|run| - 1], run[|run| - 1];
      var mid := After(cfg, s, before);
      CutOffRun(cfg, s, before, i);
      CutOffStep(cfg, mid, a, i);
      assert After(cfg, s, run) == Step(cfg, mid, a);
      assert StepsOf(run, i) == StepsOf(before, i) + One(a == Work(i));
    }
  }

  /**
   * A worker whose sender is gone has only so many steps left, whatever the others do and
   * whatever is commanded except a pause: eleven for each queued item and thirteen more.
   */
  lemma CutOffWorkerStops<S, T>(cfg: Config<S, T>, s: State<S, T>, run: seq<Action<T>>, i: nat)
    requires Shape(cfg, s) && IsRun(cfg, s, run) && i < |s.workers| && CutOff(s, i) && NoPause(run)
    ensures StepsOf(run, i) <= StepsLeft(s, i) <= 11 * |s.queues[i]| + 13
    ensures StepsOf(run, i) == StepsLeft(s, i) ==>
              Shape(cfg, After(cfg, s, run)) && After(cfg, s, run).workers[i].pc.Stopped?
  {
    CutOffRun(cfg, s, run, i);
  }

  // ---------- All workers ----------

  /** The input is closed and no stage is paused. */
  predicate Closing<S, T>(s: State<S, T>) {
    !s.inputOpen && forall i :: 0 <= i < |s.workers| ==> !s.workers[i].flags.paused
  }

  lemma StepKeepsClosing<S, T>(cfg: Config<S, T>, s: State<S, T>, a: Action<T>)
    requires Enabled(cfg, s, a) && Closing(s) && !Pauses(a)
    ensures Closing(Step(cfg, s, a)) && Step(cfg, s, a).accepted == s.accepted
  {
    StepKeepsShape(cfg, s, a);
    forall i | 0 <= i < |s.workers| ensures !Step(cfg, s, a).workers[i].flags.paused {
      StaysUnpaused(cfg, s, a, i);
    }
  }

  lemma {:induction false} RunKeepsClosing<S, T>(cfg: Config<S, T>, s: State<S, T>, run: seq<Action<T>>)
    requires Inv(cfg, s) && IsRun(cfg, s, run) && Closing(s) && NoPause(run)
    ensures Inv(cfg, After(cfg, s, run)) && Closing(After(cfg, s, run))
    ensures After(cfg, s, run).accepted == s.accepted
  {
    if run != [] {
      var before, a := run[..|run| - 1], run[|run| - 1];
      RunKeepsClosing(cfg, s, before);
      StepKeepsClosing(cfg, After(cfg, s, before), a);
      StepKeepsInv(cfg, After(cfg, s, before), a);
    }
  }

  /** A round in which every worker that has not stopped before it makes a step. */
  ghost predicate TakesTurns<S, T>(s: State<S, T>, round: seq<Action<T>>) {
    forall i: nat :: i < |s.workers| ==> StepsOf(round, i) > 0 || s.workers[i].pc.Stopped?
  }

  function Joined<T>(rounds: seq<seq<Action<T>>>): seq<Action<T>> {
    if rounds == [] then [] else Joined(rounds[..|rounds| - 1]) + rounds[|rounds| - 1]
  }

  /** A run cut into rounds. In between anything else may happen: items delivered, commands set. */
  ghost predicate IsFair<S, T>(cfg: Config<S, T>, s: State<S, T>, rounds: seq<seq<Action<T>>>)
    requires IsRun(cfg, s, Joined(rounds))
  {
    rounds == [] ||
    (var before := rounds[..|rounds| - 1];
     IsRun(cfg, s, Joined(before)) && IsFair(cfg, s, before) &&
     TakesTurns(After(cfg, s, Joined(before)), rounds[|rounds| - 1]))
  }

  lemma {:induction false} SplitRun<S, T>(cfg: Config<S, T>, s: State<S, T>, x: seq<Action<T>>, y: seq<Action<T>>)
    requires IsRun(cfg, s, x + y)
    ensures IsRun(cfg, s, x) && IsRun(cfg, After(cfg, s, x), y)
    ensures After(cfg, s, x + y) == After(cfg, After(cfg, s, x), y)
  {
    if y == [] {
      assert x + y == x;
    } else {
      assert (x + y)[..|x + y| - 1] == x + y[..|y| - 1];
      SplitRun(cfg, s, x, y[..|y| - 1]);
    }
  }

  lemma JoinStep<S, T>(cfg: Config<S, T>, s: State<S, T>, run: seq<Action<T>>,
                       s': State<S, T>, run': seq<Action<T>>, a: Action<T>)
    requires IsRun(cfg, s, run) && IsRun(cfg, s', run') && After(cfg, s, run) == After(cfg, s', run')
    requires IsRun(cfg, s', run' + [a])
    ensures IsRun(cfg, s, run + [a]) && After(cfg, s, run + [a]) == After(cfg, s', run' + [a])
  {
    assert (run + [a])[..|run|] == run && (run' + [a])[..|run'|] == run';
  }

  lemma {:induction false} JoinRuns<S, T>(cfg: Config<S, T>, s: State<S, T>, x: seq<Action<T>>, y: seq<Action<T>>)
    requires IsRun(cfg, s, x) && IsRun(cfg, After(cfg, s, x), y)
    ensures IsRun(cfg, s, x + y) && After(cfg, s, x + y) == After(cfg, After(cfg, s, x), y)
    decreases |y|
  {
    var mid := After(cfg, s, x);
    if y == [] {
      assert x + y == x && After(cfg, mid, y) == mid;
    } else {
      var before, a := y[..|y| - 1], y[|y| - 1];
      var z := x + before;
      assert before + [a] == y && z + [a] == x + y;
      JoinRuns(cfg, s, x, before);
      JoinStep(cfg, s, z, mid, before, a);
    }
  }

  /** The rounds in which one worker stops once it is cut off. */
  function RoundsPerWorker(capacity: nat): nat {
    11 * capacity + 13
  }

  /** When the turn of worker `k` comes. */
  function Turn(k: nat, bound: nat): nat {
    if k == 0 then 0 else Turn(k - 1, bound) + bound
  }

  lemma {:induction false} TurnIs(k: nat, bound: nat)
    ensures Turn(k, bound) == k * bound
  {
    if k > 0 {
      TurnIs(k - 1, bound);
      assert k * bound == (k - 1) * bound + bound;
    }
  }

  lemma {:induction false} TurnsInOrder(k: nat, n: nat, bound: nat)
    requires k <= n
    ensures Turn(k, bound) <= Turn(n, bound)
  {
    if k < n {
      TurnsInOrder(k, n - 1, bound);
    }
  }

  /** After `m` rounds, how far worker `k` is if its turn to stop has come. */
  ghost predicate InTime<S, T>(s: State<S, T>, bound: nat, m: nat, k: nat)
    requires k < |s.workers| && k < |s.queues|
  {
    m >= Turn(k, bound) ==> s.workers[k].pc.Stopped? || StepsLeft(s, k) + m <= Turn(k + 1, bound)
  }

  /** Worker `k - 1` has stopped before the turn of worker `k` comes. */
  lemma CutOffInTurn<S, T>(s: State<S, T>, bound: nat, m: nat, k: nat)
    requires k < |s.workers| < |s.queues| && Closing(s) && m >= Turn(k, bound)
    requires k > 0 ==> InTime(s, bound, m, k - 1)
    ensures CutOff(s, k)
  {
    if k > 0 {
      assert Turn(k - 1, bound) <= Turn(k, bound);
      assert s.workers[k - 1].pc.Stopped?;
    }
  }

  /** Until its turn has come, the queue's capacity bounds what a worker has left to do. */
  lemma StartsInTime<S, T>(cfg: Config<S, T>, s: State<S, T>, m: nat, k: nat)
    requires Inv(cfg, s) && k < |s.workers| && m <= Turn(k, RoundsPerWorker(cfg.capacity))
    ensures InTime(s, RoundsPerWorker(cfg.capacity), m, k)
  {
    assert LinkAgrees(cfg, s, k);
  }

  lemma StaysInTime<S, T>(cfg: Config<S, T>, s: State<S, T>, round: seq<Action<T>>, bound: nat, m: nat, k: nat)
    requires Shape(cfg, s) && k < |s.workers| && CutOff(s, k) && IsRun(cfg, s, round) && NoPause(round)
    requires TakesTurns(s, round) && m >= Turn(k, bound) && InTime(s, bound, m, k)
    ensures Shape(cfg, After(cfg, s, round)) && InTime(After(cfg, s, round), bound, m + 1, k)
  {
    CutOffRun(cfg, s, round, k);
    if s.workers[k].pc.Stopped? {
      StoppedStays(cfg, s, round, k);
    } else {
      assert StepsOf(round, k) > 0;
    }
  }

  lemma RoundIsInTime<S, T>(cfg: Config<S, T>, s: State<S, T>, round: seq<Action<T>>, m: nat, k: nat)
    requires Inv(cfg, s) && Closing(s) && IsRun(cfg, s, round) && NoPause(round) && TakesTurns(s, round)
    requires k < |s.workers|
    requires forall j: nat :: j < |s.workers| ==> InTime(s, RoundsPerWorker(cfg.capacity), m, j)
    ensures Shape(cfg, After(cfg, s, round))
    ensures InTime(After(cfg, s, round), RoundsPerWorker(cfg.capacity), m + 1, k)
  {
    var bound := RoundsPerWorker(cfg.capacity);
    RunKeepsClosing(cfg, s, round);
    if m >= Turn(k, bound) {
      CutOffInTurn(s, bound, m, k);
      StaysInTime(cfg, s, round, bound, m, k);
    } else {
      StartsInTime(cfg, After(cfg, s, round), m + 1, k);
    }
  }

  lemma SplitNoPause<T>(x: seq<Action<T>>, y: seq<Action<T>>)
    ensures NoPause(x + y) <==> NoPause(x) && NoPause(y)
  {
    assert forall k :: 0 <= k < |x| ==> (x + y)[k] == x[k];
    assert forall k :: 0 <= k < |y| ==> (x + y)[|x| + k] == y[k];
  }

  lemma SplitRounds<S, T>(cfg: Config<S, T>, s: State<S, T>, rounds: seq<seq<Action<T>>>)
    requires rounds != [] && IsRun(cfg, s, Joined(rounds)) && NoPause(Joined(rounds))
    ensures var x, round := Joined(rounds[..|rounds| - 1]), rounds[|rounds| - 1];
            && IsRun(cfg, s, x) && NoPause(x) && NoPause(round) && IsRun(cfg, After(cfg, s, x), round)
            && After(cfg, s, Joined(rounds)) == After(cfg, After(cfg, s, x), round)
  {
    var x, round := Joined(rounds[..|rounds| - 1]), rounds[|rounds| - 1];
    SplitNoPause(x, round);
    SplitRun(cfg, s, x, round);
  }

  lemma {:induction false} RoundsAreInTime<S, T>(cfg: Config<S, T>, s: State<S, T>, rounds: seq<seq<Action<T>>>)
    requires Inv(cfg, s) && Closing(s) && IsRun(cfg, s, Joined(rounds)) && NoPause(Joined(rounds)) && IsFair(cfg, s, rounds)
    ensures var s' := After(cfg, s, Joined(rounds));
            && Inv(cfg, s') && Closing(s')
            && forall k: nat :: k < |s'.workers| ==> InTime(s', RoundsPerWorker(cfg.capacity), |rounds|, k)
  {
    RunKeepsClosing(cfg, s, Joined(rounds));
    if rounds == [] {
      forall k: nat | k < |s.workers| ensures InTime(s, RoundsPerWorker(cfg.capacity), 0, k) {
        StartsInTime(cfg, s, 0, k);
      }
    } else {
      var before, round := rounds[..|rounds| - 1], rounds[|rounds| - 1];
      SplitRounds(cfg, s, rounds);
      RoundsAreInTime(cfg, s, before);
      var mid := After(cfg, s, Joined(before));
      var s', m := After(cfg, mid, round), |rounds|;
      RunKeepsClosing(cfg, mid, round);
      forall k: nat | k < |s'.workers| ensures InTime(s', RoundsPerWorker(cfg.capacity), m, k) {
        RoundIsInTime(cfg, mid, round, |before|, k);
      }
    }
  }

  lemma StoppedInTime<S, T>(s: State<S, T>, bound: nat, m: nat, k: nat, n: nat)
    requires k < |s.workers| && k < |s.queues| && InTime(s, bound, m, k) && k < n && m >= Turn(n, bound)
    ensures s.workers[k].pc.Stopped?
  {
    TurnsInOrder(k + 1, n, bound);
  }

  /**
   * Closing the input stops every worker: once no stage is paused, and as long as no pause is
   * completed, so many rounds per worker are enough, whatever the stages compute.
   */
  lemma ClosingStopsAll<S, T>(cfg: Config<S, T>, s: State<S, T>, rounds: seq<seq<Action<T>>>)
    requires Inv(cfg, s) && Closing(s) && IsRun(cfg, s, Joined(rounds)) && NoPause(Joined(rounds)) && IsFair(cfg, s, rounds)
    requires |rounds| >= |cfg.stages| * RoundsPerWorker(cfg.capacity)
    ensures var s' := After(cfg, s, Joined(rounds));
            |s'.workers| == |cfg.stages| && forall k: nat :: k < |s'.workers| ==> s'.workers[k].pc.Stopped?
  {
    var s', bound, m := After(cfg, s, Joined(rounds)), RoundsPerWorker(cfg.capacity), |rounds|;
    TurnIs(|cfg.stages|, bound);
    RoundsAreInTime(cfg, s, rounds);
    forall k: nat | k < |s'.workers| ensures s'.workers[k].pc.Stopped? {
      StoppedInTime(s', bound, m, k, |cfg.stages|);
    }
  }

  /**
   * So a pipeline whose input is closed and that is then left to run fairly, with no shutdown, no
   * reset and no failed send, ends with all of its output: what the stages compute one after the
   * other from everything it has accepted.
   */
  lemma ClosedPipelineDeliversAll<S, T>(cfg: Config<S, T>, schedule: seq<Action<T>>, rounds: seq<seq<Action<T>>>)
    requires IsRun(cfg, Init(cfg), schedule)
    requires var s := After(cfg, Init(cfg), schedule);
             Closing(s) && IsRun(cfg, s, Joined(rounds)) && NoPause(Joined(rounds)) && IsFair(cfg, s, rounds)
    requires |rounds| >= |cfg.stages| * RoundsPerWorker(cfg.capacity)
    requires var s' := After(cfg, After(cfg, Init(cfg), schedule), Joined(rounds));
             && Undisturbed(s') && (forall i: nat :: i < |s'.workers| ==> !s'.workers[i].flags.shutdown)
             && |s'.queues| == |cfg.stages| + 1 && s'.queues[|cfg.stages|] == []
    ensures var s := After(cfg, Init(cfg), schedule);
            After(cfg, s, Joined(rounds)).delivered == Meaning(cfg, |cfg.stages|, s.accepted)
  {
    ReachableInv(cfg, schedule);
    var s := After(cfg, Init(cfg), schedule);
    ClosingStopsAll(cfg, s, rounds);
    RunKeepsClosing(cfg, s, Joined(rounds));
    JoinRuns(cfg, Init(cfg), schedule, Joined(rounds));
    ClosingLosesNothing(cfg, schedule + Joined(rounds));
  }

  // ---------- There are fair runs of any length ----------

  /** One step for each of the first `k` workers that can make one. */
  lemma {:induction false} OneRound<S, T>(cfg: Config<S, T>, s: State<S, T>, k: nat) returns (round: seq<Action<T>>)
    requires Shape(cfg, s) && k <= |s.workers|
    ensures IsRun(cfg, s, round) && Shape(cfg, After(cfg, s, round)) && NoPause(round)
    ensures forall i: nat :: i < k ==> StepsOf(round, i) > 0 || s.workers[i].pc.Stopped?
    ensures forall i: nat :: k <= i < |s.workers| ==> After(cfg, s, round).workers[i].pc == s.workers[i].pc
  {
    round := [];
    if k > 0 {
      round := OneRound(cfg, s, k - 1);
      if !s.workers[k - 1].pc.Stopped? {
        round := WithStep(cfg, s, round, k - 1);
      }
    }
  }

  lemma WithStep<S, T>(cfg: Config<S, T>, s: State<S, T>, run: seq<Action<T>>, i: nat) returns (longer: seq<Action<T>>)
    requires Shape(cfg, s) && IsRun(cfg, s, run) && NoPause(run)
    requires Enabled(cfg, After(cfg, s, run), Work(i))
    ensures IsRun(cfg, s, longer) && Shape(cfg, After(cfg, s, longer)) && NoPause(longer)
    ensures forall j: nat :: StepsOf(longer, j) == StepsOf(run, j) + One(j == i)
    ensures |After(cfg, s, longer).workers| == |After(cfg, s, run).workers|
    ensures forall j: nat :: j < |After(cfg, s, run).workers| && j != i ==>
              After(cfg, s, longer).workers[j] == After(cfg, s, run).workers[j]
  {
    longer := ExtendWork(cfg, s, run, i);
    assert longer[..|longer| - 1] == run;
  }

  /** So the rounds that stop every worker can always be run. */
  lemma {:induction false} FairRoundsExist<S, T>(cfg: Config<S, T>, s: State<S, T>, m: nat)
    returns (rounds: seq<seq<Action<T>>>)
    requires Shape(cfg, s)
    ensures |rounds| == m && IsRun(cfg, s, Joined(rounds)) && Shape(cfg, After(cfg, s, Joined(rounds)))
    ensures NoPause(Joined(rounds)) && IsFair(cfg, s, rounds)
  {
    rounds := [];
    if m > 0 {
      var before := FairRoundsExist(cfg, s, m - 1);
      var mid := After(cfg, s, Joined(before));
      var round := OneRound(cfg, mid, |mid.workers|);
      JoinRuns(cfg, s, Joined(before), round);
      rounds := before + [round];
      AppendRound(cfg, s, before, round);
    }
  }

  lemma AppendRound<S, T>(cfg: Config<S, T>, s: State<S, T>, rounds: seq<seq<Action<T>>>, round: seq<Action<T>>)
    requires IsRun(cfg, s, Joined(rounds)) && IsFair(cfg, s, rounds) && NoPause(Joined(rounds)) && NoPause(round)
    requires IsRun(cfg, s, Joined(rounds) + round) && TakesTurns(After(cfg, s, Joined(rounds)), round)
    ensures Joined(rounds + [round]) == Joined(rounds) + round && NoPause(Joined(rounds + [round]))
    ensures IsFair(cfg, s, rounds + [round])
  {
    assert (rounds + [round])[..|rounds|] == rounds;
  }
}
