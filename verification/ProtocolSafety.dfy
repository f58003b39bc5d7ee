/** What holds in every state of every run of the driver protocol, and what follows for its end. */
module ProtocolSafety {
  import opened Counting
  import Injection
  import opened Protocol

  // ----- The invariant -----

  function Spawned(d: Driver, n: nat): nat {
    match d
    case Spawning(i) => i
    case SendingInit(i) => i + 1
    case _ => n
  }

  function InitsSent(d: Driver, n: nat): nat {
    match d
    case Spawning(i) => i
    case SendingInit(i) => i
    case _ => n
  }

  /** Until all zeros have come back: only zeros are reported, and every worker that has been sent an
      operation has it ahead, is about to report, or has reported. */
  predicate Starting(s: State) {
    && (s.driver.Spawning? || s.driver.SendingInit? || s.driver.AwaitingZeros?)
    && s.driver.i < s.n
    && s.input == [] && s.batches == 0 && s.injected == 0 && !s.stop
    && (forall k :: 0 <= k < |s.output| ==> s.output[k] == 0)
    && (forall w :: 0 <= w < |s.workers| ==> s.workers[w].nb == 0 && !s.workers[w].pc.SendCount? && !s.workers[w].pc.Done?)
    && (forall w :: 0 <= w < |s.workers| ==> (s.workers[w].pc == NotStarted <==> w >= Spawned(s.driver, s.n)))
    && s.inits + Count(s.workers, SendZero) + Count(s.workers, Loop) == InitsSent(s.driver, s.n)
    && Count(s.workers, Loop) == |s.output| + if s.driver.AwaitingZeros? then s.driver.i else 0
  }

  function ExitsSent(d: Driver, n: nat): nat {
    match d
    case SendingExits(i) => i
    case Receiving(_, _) => n
    case _ => 0
  }

  function Received(d: Driver): nat {
    if d.Receiving? then d.i else 0
  }

  function Collected(d: Driver): nat {
    if d.Receiving? then d.nb else 0
  }

  /** Exits come last in the channel. */
  predicate StepsFirst(input: seq<Op>) {
    forall j, k :: 0 <= j < k < |input| && input[j] == OpExit ==> input[k] == OpExit
  }

  /** What a number of batches add up to: 16 operations for each of n workers, or what is due. */
  function Planned(injector: Injector, n: nat, batches: nat): nat {
    match injector
    case Saturation => batches * (16 * n)
    case OLTP(tps) => Injection.DueUpTo(Injection.Target(tps), batches)
  }

  /** Once all zeros have come back: every exit sent is in the channel or has been taken by one worker,
      every worker that is done has its count in the output or with the driver, no operation is left
      once an exit has been taken, and the operations injected are in the channel, counted, reported or collected. */
  ghost predicate Working(s: State) {
    && (s.driver.Injecting? || s.driver.SendingExits? || s.driver.Receiving?)
    && (s.driver.SendingExits? ==> s.driver.i < s.n) && (s.driver.Receiving? ==> s.driver.i <= s.n)
    && s.inits == 0 && (!s.driver.Injecting? ==> !s.stop)
    && (forall w :: 0 <= w < |s.workers| ==>
          s.workers[w].pc.Loop? || s.workers[w].pc.SendCount? || s.workers[w].pc.Done?)
    && StepsFirst(s.input)
    && (Count(s.workers, SendCount) + Count(s.workers, Done) > 0 ==> Ops(s.input, OpStep) == 0)
    && Ops(s.input, OpExit) + Count(s.workers, SendCount) + Count(s.workers, Done) == ExitsSent(s.driver, s.n)
    && Count(s.workers, Done) == |s.output| + Received(s.driver)
    && Ops(s.input, OpStep) + Total(s.workers, Unreported()) + Sum(s.output) + Collected(s.driver) == s.injected
    && s.injected + (if s.driver.Injecting? then s.driver.todo else 0) == Planned(s.injector, s.n, s.batches)
  }

  ghost predicate Inv(s: State) {
    && s.n >= 1 && |s.workers| == s.n
    && s.inits <= s.n && |s.input| <= 32 * s.n && |s.output| <= s.n
    && (Starting(s) || Working(s))
  }

  lemma StartHolds(n: nat, injector: Injector)
    requires n >= 1
    ensures Inv(Start(n, injector))
  {
    var s := Start(n, injector);
    TotalZero(s.workers, At(SendZero));
    TotalZero(s.workers, At(Loop));
  }

  // ----- Every step keeps it -----

  lemma SpawnKeeps(s: State)
    requires Inv(s) && DriverEnabled(s) && s.driver.Spawning?
    ensures Inv(DriverNext(s))
  {
    var i := s.driver.i;
    var me := s.workers[i].(pc := AwaitInit);
    CountUpdate(s.workers, SendZero, i, me);
    CountUpdate(s.workers, Loop, i, me);
  }

  lemma SendInitKeeps(s: State)
    requires Inv(s) && DriverEnabled(s) && s.driver.SendingInit?
    ensures Inv(DriverNext(s))
  {
  }

  /** The last zero: all workers are in their loop, and nothing is left in the channels. */
  lemma ZeroKeeps(s: State)
    requires Inv(s) && DriverEnabled(s) && s.driver.AwaitingZeros?
    ensures Inv(DriverNext(s))
  {
    CountAll(s.workers);
    if s.driver.i + 1 == s.n {
      assert Count(s.workers, Loop) == s.n;
      forall w | 0 <= w < |s.workers| ensures s.workers[w].pc.Loop? {
        CountWitness(s.workers, s.workers[w].pc, w);
      }
      TotalZero(s.workers, At(SendCount));
      TotalZero(s.workers, At(Done));
      TotalZero(s.workers, Unreported());
    }
  }

  lemma InjectKeeps(s: State)
    requires Inv(s) && DriverEnabled(s) && s.driver.Injecting?
    ensures Inv(DriverNext(s))
  {
    OpsSnoc(s.input, OpStep, OpStep);
    OpsSnoc(s.input, OpExit, OpStep);
    NoExitYet(s.input);
  }

  lemma {:induction false} NoExitYet(input: seq<Op>)
    ensures Ops(input, OpExit) == 0 <==> forall k :: 0 <= k < |input| ==> input[k] == OpStep
  {
    if input != [] {
      NoExitYet(input[1..]);
      assert forall k :: 0 < k < |input| ==> input[k] == input[1..][k - 1];
      assert forall k :: 0 <= k < |input[1..]| ==> input[1..][k] == input[k + 1];
    }
  }

  lemma SendExitKeeps(s: State)
    requires Inv(s) && DriverEnabled(s) && s.driver.SendingExits?
    ensures Inv(DriverNext(s))
  {
    OpsSnoc(s.input, OpStep, OpExit);
    OpsSnoc(s.input, OpExit, OpExit);
  }

  lemma ReceiveKeeps(s: State)
    requires Inv(s) && DriverEnabled(s) && s.driver.Receiving?
    ensures Inv(DriverNext(s))
  {
  }

  lemma StartingWorkerKeeps(s: State, w: nat)
    requires Inv(s) && Starting(s) && WorkerEnabled(s, w)
    ensures Inv(WorkerNext(s, w))
  {
    var me := WorkerNext(s, w).workers[w];
    CountUpdate(s.workers, SendZero, w, me);
    CountUpdate(s.workers, Loop, w, me);
  }

  lemma CountStepKeeps(s: State, w: nat)
    requires Inv(s) && Working(s) && WorkerEnabled(s, w) && s.workers[w].pc.Loop? && s.input[0] == OpStep
    ensures Inv(WorkerNext(s, w))
  {
    var me := WorkerNext(s, w).workers[w];
    CountUpdate(s.workers, SendCount, w, me);
    CountUpdate(s.workers, Done, w, me);
    TotalUpdate(s.workers, Unreported(), w, me);
  }

  lemma TakeExitKeeps(s: State, w: nat)
    requires Inv(s) && Working(s) && WorkerEnabled(s, w) && s.workers[w].pc.Loop? && s.input[0] == OpExit
    ensures Inv(WorkerNext(s, w))
  {
    var me := WorkerNext(s, w).workers[w];
    CountUpdate(s.workers, SendCount, w, me);
    CountUpdate(s.workers, Done, w, me);
    TotalUpdate(s.workers, Unreported(), w, me);
    OnlyExits(s.input);
  }

  lemma {:induction false} OnlyExits(input: seq<Op>)
    requires StepsFirst(input) && input != [] && input[0] == OpExit
    ensures Ops(input, OpStep) == 0
  {
    if |input| > 1 {
      assert input[1..][0] == input[1];
      OnlyExits(input[1..]);
    }
  }

  lemma ReportKeeps(s: State, w: nat)
    requires Inv(s) && Working(s) && WorkerEnabled(s, w) && s.workers[w].pc.SendCount?
    ensures Inv(WorkerNext(s, w))
  {
    var me := WorkerNext(s, w).workers[w];
    CountUpdate(s.workers, SendCount, w, me);
    CountUpdate(s.workers, Done, w, me);
    TotalUpdate(s.workers, Unreported(), w, me);
    SumSnoc(s.output, s.workers[w].nb);
  }

  lemma WorkingWorkerKeeps(s: State, w: nat)
    requires Inv(s) && Working(s) && WorkerEnabled(s, w)
    ensures Inv(WorkerNext(s, w))
  {
    if s.workers[w].pc.SendCount? {
      ReportKeeps(s, w);
    } else if s.input[0] == OpStep {
      CountStepKeeps(s, w);
    } else {
      TakeExitKeeps(s, w);
    }
  }

  lemma OneMoreBatch(s: State)
    ensures Planned(s.injector, s.n, s.batches + 1) == Planned(s.injector, s.n, s.batches) + BatchSize(s)
  {
  }

  lemma BatchKeeps(s: State)
    requires Inv(s) && BatchEnabled(s)
    ensures Inv(Apply(s, Batch))
  {
    OneMoreBatch(s);
  }

  lemma StepKeeps(s: State, e: Event)
    requires Inv(s) && Enabled(s, e)
    ensures Inv(Apply(s, e))
  {
    match e
    case DriverStep =>
      match s.driver {
        case Spawning(_) => SpawnKeeps(s);
        case SendingInit(_) => SendInitKeeps(s);
        case AwaitingZeros(_) => ZeroKeeps(s);
        case Injecting(_) => InjectKeeps(s);
        case SendingExits(_) => SendExitKeeps(s);
        case Receiving(_, _) => ReceiveKeeps(s);
      }
    case Batch => BatchKeeps(s);
    case Timer =>
    case WorkerStep(w) => if Starting(s) { StartingWorkerKeeps(s, w); } else { WorkingWorkerKeeps(s, w); }
  }

  /** The invariant holds in every state of every run. */
  lemma {:induction false} RunKeeps(s: State, es: seq<Event>, t: State)
    requires Inv(s) && Run(s, es, t)
    ensures Inv(t)
    decreases |es|
  {
    if es != [] {
      StepKeeps(s, es[0]);
      RunKeeps(Apply(s, es[0]), es[1..], t);
    }
  }

  /** How many batches the events of a run begin. */
  function BatchesIn(es: seq<Event>): nat {
    if es == [] then 0 else (if es[0].Batch? then 1 else 0) + BatchesIn(es[1..])
  }

  lemma StepCounts(s: State, e: Event)
    requires Enabled(s, e)
    ensures var t := Apply(s, e);
            t.n == s.n && t.injector == s.injector && t.batches == s.batches + if e.Batch? then 1 else 0
  {
  }

  lemma {:induction false} RunCounts(s: State, es: seq<Event>, t: State)
    requires Run(s, es, t)
    ensures t.n == s.n && t.injector == s.injector && t.batches == s.batches + BatchesIn(es)
    decreases |es|
  {
    if es != [] {
      StepCounts(s, es[0]);
      RunCounts(Apply(s, es[0]), es[1..], t);
    }
  }

  // ----- What the runs end with -----

  /** While the driver waits for the initialisation of the workers, all it can receive is a zero; while
      it injects, it would have nothing to receive: initialisation and final counts never mix. */
  lemma ZerosDoNotMix(s: State)
    requires Inv(s)
    ensures s.driver.AwaitingZeros? ==> forall k :: 0 <= k < |s.output| ==> s.output[k] == 0
    ensures s.driver.Injecting? ==> s.output == [] && forall w :: 0 <= w < |s.workers| ==> s.workers[w].pc == Loop
  {
    if s.driver.Injecting? {
      forall w | 0 <= w < |s.workers| ensures s.workers[w].pc == Loop {
        CountWitness(s.workers, s.workers[w].pc, w);
      }
    }
  }

  /** In a final state the channels are empty, every worker has taken its exit, and the driver has
      collected exactly the operations it has injected, which are all those of its batches. */
  lemma FinalCollectsAll(s: State)
    requires Inv(s) && Final(s)
    ensures s.input == [] && s.output == [] && s.inits == 0
    ensures forall w :: 0 <= w < |s.workers| ==> s.workers[w].pc == Done
    ensures s.driver.nb == s.injected == Planned(s.injector, s.n, s.batches)
  {
    CountAll(s.workers);
    forall w | 0 <= w < |s.workers| ensures s.workers[w].pc == Done {
      CountWitness(s.workers, s.workers[w].pc, w);
    }
    TotalZero(s.workers, Unreported());
    OpsAll(s.input);
  }
}
