/** No run of the driver protocol gets stuck, and after the stop signal every run ends. */
module ProtocolProgress {
  import opened Counting
  import Injection
  import opened Protocol
  import opened ProtocolSafety

  /** The driver waits for a tick or for the stop signal: only the clock can end this. */
  predicate AwaitingClock(s: State) {
    s.driver == Injecting(0) && s.injector.OLTP? && !s.stop
  }

  // ----- No deadlock -----

  lemma StartingProgress(s: State) returns (e: Event)
    requires Inv(s) && Starting(s)
    ensures Enabled(s, e) && !e.Timer?
  {
    CountAll(s.workers);
    e := DriverStep;
    if s.driver.AwaitingZeros? && s.output == [] {
      if Count(s.workers, SendZero) > 0 {
        var w := CountPositive(s.workers, SendZero);
        e := WorkerStep(w);
      } else {
        TotalZero(s.workers, At(NotStarted));
        TotalZero(s.workers, At(SendCount));
        TotalZero(s.workers, At(Done));
        var w := CountPositive(s.workers, AwaitInit);
        e := WorkerStep(w);
      }
    }
  }

  lemma InjectingProgress(s: State) returns (e: Event)
    requires Inv(s) && Working(s) && s.driver.Injecting? && !AwaitingClock(s)
    ensures Enabled(s, e) && !e.Timer?
  {
    if s.driver.todo == 0 {
      e := if s.stop then DriverStep else Batch;
    } else if |s.input| < 32 * s.n {
      e := DriverStep;
    } else {
      ZerosDoNotMix(s);
      e := WorkerStep(0);
    }
  }

  /** While an exit is missing, some worker is still in its loop and makes room in a full channel. */
  lemma SendingProgress(s: State) returns (e: Event)
    requires Inv(s) && Working(s) && s.driver.SendingExits?
    ensures Enabled(s, e) && !e.Timer?
  {
    e := DriverStep;
    if |s.input| >= 32 * s.n {
      CountAll(s.workers);
      TotalZero(s.workers, At(NotStarted));
      TotalZero(s.workers, At(AwaitInit));
      TotalZero(s.workers, At(SendZero));
      var w := CountPositive(s.workers, Loop);
      e := WorkerStep(w);
    }
  }

  /** While a count is missing, some worker can report it, or can take its exit from the channel. */
  lemma ReceivingProgress(s: State) returns (e: Event)
    requires Inv(s) && Working(s) && s.driver.Receiving? && !Final(s)
    ensures Enabled(s, e) && !e.Timer?
  {
    e := DriverStep;
    if s.output == [] {
      CountAll(s.workers);
      TotalZero(s.workers, At(NotStarted));
      TotalZero(s.workers, At(AwaitInit));
      TotalZero(s.workers, At(SendZero));
      if Count(s.workers, SendCount) > 0 {
        var w := CountPositive(s.workers, SendCount);
        e := WorkerStep(w);
      } else {
        OpsAll(s.input);
        var w := CountPositive(s.workers, Loop);
        e := WorkerStep(w);
      }
    }
  }

  /** In every reachable state that is not final, the driver or a worker can take a step, unless the
      driver is waiting for the clock. In particular nothing is stuck once the stop signal is there. */
  lemma NoDeadlock(s: State) returns (e: Event)
    requires Inv(s) && !Final(s) && !AwaitingClock(s)
    ensures Enabled(s, e) && !e.Timer?
  {
    if Starting(s) {
      e := StartingProgress(s);
    } else if s.driver.Injecting? {
      e := InjectingProgress(s);
    } else if s.driver.SendingExits? {
      e := SendingProgress(s);
    } else {
      e := ReceivingProgress(s);
    }
  }

  // ----- Termination -----

  /** The steps that a worker still takes by itself, and the receptions of what it sends. */
  function Ahead(): Worker -> nat {
    (w: Worker) => if w.pc == SendZero || w.pc == SendCount then 2 else 0
  }

  function DriverAhead(d: Driver, n: nat): nat {
    match d
    case Spawning(i) => if i < n then 1 + 5 * (n - i) + 4 * n else 0
    case SendingInit(i) => if i < n then 5 * (n - i) + 4 * n else 0
    case AwaitingZeros(_) => 1 + 4 * n
    case Injecting(todo) => 1 + 4 * n + 2 * todo
    case SendingExits(i) => if i < n then 4 * (n - i) else 0
    case Receiving(_, _) => 0
  }

  /** How many steps are left, not counting further batches and the timer. */
  function Rank(s: State): nat {
    DriverAhead(s.driver, s.n) + 3 * s.inits + Ops(s.input, OpStep) + 3 * Ops(s.input, OpExit)
    + Total(s.workers, Ahead()) + |s.output|
  }

  /** Every step of the driver and of a worker leaves fewer steps to be taken. */
  lemma StepsRunOut(s: State, e: Event)
    requires Inv(s) && Enabled(s, e) && (e.DriverStep? || e.WorkerStep?)
    ensures Rank(Apply(s, e)) < Rank(s)
  {
    if e.DriverStep? {
      DriverRunsOut(s);
    } else {
      WorkerRunsOut(s, e.w);
    }
  }

  lemma SpawnRunsOut(s: State)
    requires Inv(s) && DriverEnabled(s) && s.driver.Spawning?
    ensures Rank(DriverNext(s)) < Rank(s)
  {
    TotalUpdate(s.workers, Ahead(), s.driver.i, s.workers[s.driver.i].(pc := AwaitInit));
  }

  lemma InjectRunsOut(s: State)
    requires Inv(s) && DriverEnabled(s) && s.driver.Injecting?
    ensures Rank(DriverNext(s)) < Rank(s)
  {
    OpsSnoc(s.input, OpStep, OpStep);
    OpsSnoc(s.input, OpExit, OpStep);
  }

  lemma SendExitRunsOut(s: State)
    requires Inv(s) && DriverEnabled(s) && s.driver.SendingExits?
    ensures Rank(DriverNext(s)) < Rank(s)
  {
    OpsSnoc(s.input, OpStep, OpExit);
    OpsSnoc(s.input, OpExit, OpExit);
  }

  lemma DriverRunsOut(s: State)
    requires Inv(s) && DriverEnabled(s)
    ensures Rank(DriverNext(s)) < Rank(s)
  {
    if s.driver.Spawning? {
      SpawnRunsOut(s);
    } else if s.driver.Injecting? {
      InjectRunsOut(s);
    } else if s.driver.SendingExits? {
      SendExitRunsOut(s);
    }
  }

  lemma WorkerRunsOut(s: State, w: nat)
    requires Inv(s) && WorkerEnabled(s, w)
    ensures Rank(WorkerNext(s, w)) < Rank(s)
  {
    TotalUpdate(s.workers, Ahead(), w, WorkerNext(s, w).workers[w]);
  }

  /** No batch can begin any more: saturation looks at the stop signal before every batch, and the OLTP
      injector has taken it. */
  predicate Stopping(s: State) {
    (s.injector.Saturation? && s.driver.Injecting? && s.stop) || s.driver.SendingExits? || s.driver.Receiving?
  }

  lemma StoppingStays(s: State, e: Event)
    requires Inv(s) && Stopping(s) && Enabled(s, e)
    ensures Stopping(Apply(s, e)) && (e.DriverStep? || e.WorkerStep?)
  {
  }

  /** From then on a run takes at most Rank(s) further steps, whatever the interleaving; if it cannot be
      continued it has ended, with all the operations of all batches collected. */
  lemma {:induction false} StoppedRunEnds(s: State, es: seq<Event>, t: State)
    requires Inv(s) && Stopping(s) && Run(s, es, t)
    ensures |es| <= Rank(s)
    ensures (forall e :: !Enabled(t, e)) ==>
              Final(t) && t.driver.nb == t.injected == Planned(t.injector, t.n, t.batches)
    decreases |es|
  {
    if es == [] {
      if forall e :: !Enabled(t, e) {
        if !Final(t) {
          var e := NoDeadlock(t);
        }
        FinalCollectsAll(t);
      }
    } else {
      var u := Apply(s, es[0]);
      StepKeeps(s, es[0]);
      StoppingStays(s, es[0]);
      StepsRunOut(s, es[0]);
      StoppedRunEnds(u, es[1..], t);
    }
  }

  // ----- All together -----

  /** Every state t of every run from the start, for any number of workers and any interleaving: it is
      final, waits for the clock, or can go on; and a final state has collected what the batches of the run
      were to inject: under saturation 16 operations for each worker and batch, else what was due at the ticks. */
  lemma EveryRun(n: nat, injector: Injector, es: seq<Event>, t: State)
    requires n >= 1 && Run(Start(n, injector), es, t)
    ensures Inv(t)
    ensures Final(t) || AwaitingClock(t) || exists e: Event :: Enabled(t, e) && !e.Timer?
    ensures Final(t) ==> t.driver.nb == Planned(injector, n, BatchesIn(es)) && t.input == [] && t.output == []
    ensures Final(t) ==> forall w :: 0 <= w < |t.workers| ==> t.workers[w].pc == Done
  {
    StartHolds(n, injector);
    RunKeeps(Start(n, injector), es, t);
    RunCounts(Start(n, injector), es, t);
    if Final(t) {
      FinalCollectsAll(t);
    } else if !AwaitingClock(t) {
      var e := NoDeadlock(t);
    }
  }

  /** A run that has ended has collected no less than the target rate, and hardly more. */
  lemma RateReached(n: nat, tps: nat, es: seq<Event>, t: State)
    requires n >= 1 && Run(Start(n, OLTP(tps)), es, t) && Final(t)
    ensures var p, ticks := Injection.Periods(tps), BatchesIn(es);
            ticks * tps <= p * t.driver.nb <= ticks * tps + p * (tps % p)
  {
    EveryRun(n, OLTP(tps), es, t);
    Injection.NeverBehind(tps, BatchesIn(es));
  }

  /** A run with the ticks of a number of seconds ends with exactly the target throughput in each of them. */
  lemma TargetReached(n: nat, tps: nat, secs: nat, es: seq<Event>, t: State)
    requires n >= 1 && Run(Start(n, OLTP(tps)), es, t) && Final(t)
    requires BatchesIn(es) == secs * Injection.Periods(tps)
    ensures t.driver.nb == secs * tps
  {
    EveryRun(n, OLTP(tps), es, t);
    Injection.WholeSeconds(tps, secs);
  }

  // ----- Every run can be brought to an end -----

  /** Between two batches both injectors take the stop signal, and the driver goes on to the exits. */
  lemma StopIsTaken(s: State)
    requires Inv(s) && s.driver == Injecting(0) && s.stop
    ensures Enabled(s, DriverStep)
    ensures Apply(s, DriverStep).driver == SendingExits(0) && Apply(s, DriverStep).injected == s.injected
  {
  }

  lemma {:induction false} RunConcat(s: State, es: seq<Event>, t: State, fs: seq<Event>, u: State)
    requires Run(s, es, t) && Run(t, fs, u)
    ensures Run(s, es + fs, u) && BatchesIn(es + fs) == BatchesIn(es) + BatchesIn(fs)
    decreases |es|
  {
    if es == [] {
      assert es + fs == fs;
    } else {
      assert (es + fs)[0] == es[0] && (es + fs)[1..] == es[1..] + fs;
      RunConcat(Apply(s, es[0]), es[1..], t, fs, u);
    }
  }

  lemma RunCons(s: State, e: Event, es: seq<Event>, t: State)
    requires Enabled(s, e) && Run(Apply(s, e), es, t)
    ensures Run(s, [e] + es, t) && BatchesIn([e] + es) == BatchesIn(es) + if e.Batch? then 1 else 0
  {
    assert ([e] + es)[0] == e && ([e] + es)[1..] == es;
  }

  /** What to do next if no further batch is to begin: the timer fires once the workers have been initialised. */
  lemma NextWithoutBatch(s: State) returns (e: Event)
    requires Inv(s) && !Final(s)
    ensures Enabled(s, e) && !e.Batch?
  {
    if s.driver.Injecting? && !s.stop {
      e := Timer;
    } else if s.driver == Injecting(0) {
      StopIsTaken(s);
      e := DriverStep;
    } else {
      e := NoDeadlock(s);
    }
  }

  function SignalsLeft(s: State): nat {
    if s.stop then 0 else 1
  }

  /** From every state that can be reached, some run ends, without a further batch. */
  lemma {:induction false} CanEnd(s: State) returns (es: seq<Event>, t: State)
    requires Inv(s)
    ensures Run(s, es, t) && Final(t) && BatchesIn(es) == 0
    decreases Rank(s), SignalsLeft(s)
  {
    if Final(s) {
      es, t := [], s;
    } else {
      var e := NextWithoutBatch(s);
      StepKeeps(s, e);
      if !e.Timer? {
        StepsRunOut(s, e);
      }
      var rest;
      rest, t := CanEnd(Apply(s, e));
      RunCons(s, e, rest, t);
      es := [e] + rest;
    }
  }

  /** The driver and the workers initialise themselves. */
  lemma {:induction false} CanInitialise(s: State) returns (es: seq<Event>, t: State)
    requires Inv(s) && Starting(s)
    ensures Run(s, es, t) && BatchesIn(es) == 0 && Inv(t) && t.driver == Injecting(0) && !t.stop
    decreases Rank(s)
  {
    var e := StartingProgress(s);
    var u := Apply(s, e);
    StepKeeps(s, e);
    StepsRunOut(s, e);
    if Starting(u) {
      var rest;
      rest, t := CanInitialise(u);
      RunCons(s, e, rest, t);
      es := [e] + rest;
    } else {
      es, t := [e], u;
      RunCons(s, e, [], t);
      assert [e] + [] == [e];
    }
  }

  /** A batch that has begun can be sent before the stop signal comes. */
  lemma {:induction false} CanSendBatch(s: State) returns (es: seq<Event>, t: State)
    requires Inv(s) && s.driver.Injecting? && !s.stop
    ensures Run(s, es, t) && BatchesIn(es) == 0 && Inv(t) && t.driver == Injecting(0) && !t.stop
    decreases Rank(s)
  {
    if s.driver.todo == 0 {
      es, t := [], s;
    } else {
      var e := InjectingProgress(s);
      StepKeeps(s, e);
      StepsRunOut(s, e);
      var rest;
      rest, t := CanSendBatch(Apply(s, e));
      RunCons(s, e, rest, t);
      es := [e] + rest;
    }
  }

  /** Any number of batches can be sent before the stop signal comes. */
  lemma {:induction false} CanSend(n: nat, injector: Injector, batches: nat) returns (es: seq<Event>, t: State)
    requires n >= 1
    ensures Run(Start(n, injector), es, t) && BatchesIn(es) == batches
    ensures Inv(t) && t.driver == Injecting(0) && !t.stop
    decreases batches
  {
    if batches == 0 {
      StartHolds(n, injector);
      es, t := CanInitialise(Start(n, injector));
    } else {
      var before, s := CanSend(n, injector, batches - 1);
      StepKeeps(s, Batch);
      var sending;
      sending, t := CanSendBatch(Apply(s, Batch));
      RunCons(s, Batch, sending, t);
      RunConcat(Start(n, injector), before, s, [Batch] + sending, t);
      es := before + ([Batch] + sending);
    }
  }

  /** For any number of workers, either injector and any number of batches some run ends, and has collected them. */
  lemma AnyNumberOfBatches(n: nat, injector: Injector, batches: nat) returns (es: seq<Event>, t: State)
    requires n >= 1
    ensures Run(Start(n, injector), es, t) && Final(t) && BatchesIn(es) == batches
    ensures t.driver.nb == Planned(injector, n, batches)
  {
    var sending, s := CanSend(n, injector, batches);
    var ending;
    ending, t := CanEnd(s);
    RunConcat(Start(n, injector), sending, s, ending, t);
    es := sending + ending;
    EveryRun(n, injector, es, t);
  }
}
