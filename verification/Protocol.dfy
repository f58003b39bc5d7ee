/** The driver of main.go and its workers (worker.go) as a step system over bounded FIFO channels:
    any number of workers, any interleaving, either injector and any target throughput. */
module Protocol {
  import Injection

  datatype Op = OpStep | OpExit

  datatype Pc = NotStarted | AwaitInit | SendZero | Loop | SendCount | Done

  /** A worker, where it is in Run, and the transactions it has counted. */
  datatype Worker = Worker(pc: Pc, nb: nat)

  /** Where the driver is in runBench. Sending(i) has sent i exits, Receiving(i, nb) has received i counts
      that add up to nb; Injecting(todo) has todo operations of the current batch left to send. */
  datatype Driver =
    | Spawning(i: nat) | SendingInit(i: nat) | AwaitingZeros(i: nat)
    | Injecting(todo: nat)
    | SendingExits(i: nat)
    | Receiving(i: nat, nb: nat)

  /** The injection policy: to saturate the workers, or to reach a target throughput. */
  datatype Injector = Saturation | OLTP(tps: int)

  /** The three channels; inits counts the operations in the first one, which are all alike. stop tells
      that the timer is ready to send; batches counts the batches begun, and injected the OpStep operations sent. */
  datatype State = State(
    n: nat, injector: Injector,
    driver: Driver, workers: seq<Worker>,
    inits: nat, input: seq<Op>, output: seq<nat>,
    stop: bool, batches: nat, injected: nat)

  /** A step of the driver, of the timer, of one of the workers; or the driver begins a batch. */
  datatype Event = DriverStep | Batch | Timer | WorkerStep(w: nat)

  function Start(n: nat, injector: Injector): State {
    State(n, injector, Spawning(0), seq(n, i => Worker(NotStarted, 0)), 0, [], [], false, 0, 0)
  }

  predicate Final(s: State) {
    s.driver.Receiving? && s.driver.i == s.n
  }

  // ----- Steps -----

  predicate DriverEnabled(s: State) {
    match s.driver
    case Spawning(i) => i < |s.workers|
    case SendingInit(_) => s.inits < s.n
    case AwaitingZeros(_) => s.output != []
    case Injecting(todo) => if todo > 0 then |s.input| < 32 * s.n else s.stop
    case SendingExits(i) => |s.input| < 32 * s.n
    case Receiving(i, _) => i < s.n && s.output != []
  }

  function DriverNext(s: State): State
    requires DriverEnabled(s)
  {
    match s.driver
    case Spawning(i) =>
      s.(driver := SendingInit(i), workers := s.workers[i := s.workers[i].(pc := AwaitInit)])
    case SendingInit(i) =>
      s.(driver := if i + 1 == s.n then AwaitingZeros(0) else Spawning(i + 1), inits := s.inits + 1)
    case AwaitingZeros(i) =>
      s.(driver := if i + 1 == s.n then Injecting(0) else AwaitingZeros(i + 1), output := s.output[1..])
    case Injecting(todo) =>
      if todo > 0 then s.(driver := Injecting(todo - 1), input := s.input + [OpStep], injected := s.injected + 1)
      else s.(driver := SendingExits(0), stop := false)
    case SendingExits(i) =>
      s.(driver := if i + 1 == s.n then Receiving(0, 0) else SendingExits(i + 1), input := s.input + [OpExit])
    case Receiving(i, nb) =>
      s.(driver := Receiving(i + 1, nb + s.output[0]), output := s.output[1..])
  }

  predicate WorkerEnabled(s: State, w: nat) {
    w < |s.workers| &&
    match s.workers[w].pc
    case NotStarted => false
    case AwaitInit => s.inits > 0
    case SendZero => |s.output| < s.n
    case Loop => s.input != []
    case SendCount => |s.output| < s.n
    case Done => false
  }

  function WorkerNext(s: State, w: nat): State
    requires WorkerEnabled(s, w)
  {
    var me := s.workers[w];
    match me.pc
    case NotStarted => s
    case AwaitInit => s.(inits := s.inits - 1, workers := s.workers[w := me.(pc := SendZero)])
    case SendZero => s.(output := s.output + [0], workers := s.workers[w := me.(pc := Loop)])
    case Loop =>
      if s.input[0] == OpStep then s.(input := s.input[1..], workers := s.workers[w := me.(nb := me.nb + 1)])
      else s.(input := s.input[1..], workers := s.workers[w := me.(pc := SendCount)])
    case SendCount => s.(output := s.output + [me.nb], workers := s.workers[w := me.(pc := Done)])
    case Done => s
  }

  /** Saturation looks at the stop channel first; the OLTP injector may find a tick even if the stop signal is
      there too. */
  predicate BatchEnabled(s: State) {
    s.driver == Injecting(0) && (s.injector.Saturation? ==> !s.stop)
  }

  /** Saturation sends 16 operations for each worker; the OLTP injector sends what is due at the tick. */
  function BatchSize(s: State): nat {
    match s.injector
    case Saturation => 16 * s.n
    case OLTP(tps) => Injection.Due(Injection.Target(tps), s.batches)
  }

  predicate TimerEnabled(s: State) {
    s.driver.Injecting? && !s.stop
  }

  predicate Enabled(s: State, e: Event) {
    match e
    case DriverStep => DriverEnabled(s)
    case Batch => BatchEnabled(s)
    case Timer => TimerEnabled(s)
    case WorkerStep(w) => WorkerEnabled(s, w)
  }

  function Apply(s: State, e: Event): State
    requires Enabled(s, e)
  {
    match e
    case DriverStep => DriverNext(s)
    case Batch => s.(driver := Injecting(BatchSize(s)), batches := s.batches + 1)
    case Timer => s.(stop := true)
    case WorkerStep(w) => WorkerNext(s, w)
  }

  /** The events es, one after the other, lead from s to t. */
  ghost predicate Run(s: State, es: seq<Event>, t: State)
    decreases |es|
  {
    if es == [] then s == t
    else Enabled(s, es[0]) && Run(Apply(s, es[0]), es[1..], t)
  }
}
