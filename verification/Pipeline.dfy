/** The two goroutines of logging.go: a producer that formats lines into recycled buffers, and a consumer
    that conceals, writes and gives the buffers back; a queue of eight lines between them. */
module Pipeline {

  /** Buffers are told apart by numbers; a line is whatever the producer formats into a buffer. */
  type Buffer = nat
  type Line = string
  datatype Filled = Filled(buf: Buffer, line: Line)

  const QUEUE: nat := 8

  datatype Producer = Formatting | Sending(f: Filled) | Waiting | Finished
  datatype Consumer = Receiving | Concealing(f: Filled) | Writing(f: Filled) | Putting(buf: Buffer) | Exited

  /** todo are the lines still to be logged; made is the number of buffers allocated so far. */
  datatype State = State(
    todo: seq<Line>, producer: Producer,
    queue: seq<Filled>, closed: bool,
    consumer: Consumer, ack: bool,
    pool: seq<Buffer>, made: nat,
    output: seq<Line>)

  /** A step of either side. A line that outgrows its buffer is formatted into a fresh one; concealing replaces
      the line, in a fresh buffer if something was found. The buffer that is replaced is dropped. */
  datatype Event = Produce(grown: bool) | Consume | Conceal(found: bool)

  function Start(lines: seq<Line>, pool: seq<Buffer>, made: nat): State {
    State(lines, Formatting, [], false, Receiving, false, pool, made, [])
  }

  predicate ProduceEnabled(s: State) {
    match s.producer
    case Formatting => true
    case Sending(_) => |s.queue| < QUEUE
    case Waiting => s.ack
    case Finished => false
  }

  /** get takes the buffer on top of the pool, or allocates one. */
  predicate Fresh(s: State, grown: bool) {
    grown || s.pool == []
  }

  function PoolLeft(pool: seq<Buffer>): seq<Buffer> {
    if pool == [] then [] else pool[..|pool| - 1]
  }

  function Format(s: State, grown: bool): State
    requires s.todo != []
  {
    var buf := if Fresh(s, grown) then s.made else s.pool[|s.pool| - 1];
    s.(producer := Sending(Filled(buf, s.todo[0])), todo := s.todo[1..], pool := PoolLeft(s.pool),
       made := if Fresh(s, grown) then s.made + 1 else s.made)
  }

  /** After the last line the queue is closed. */
  function ProduceNext(s: State, grown: bool): State
    requires ProduceEnabled(s)
  {
    match s.producer
    case Formatting =>
      if s.todo == [] then s.(producer := Waiting, closed := true)
      else Format(s, grown)
    case Sending(f) => s.(producer := Formatting, queue := s.queue + [f])
    case Waiting => s.(producer := Finished, ack := false)
    case Finished => s
  }

  predicate ConsumeEnabled(s: State) {
    match s.consumer
    case Receiving => s.queue != [] || s.closed
    case Concealing(_) => false
    case Writing(_) => true
    case Putting(_) => true
    case Exited => false
  }

  function ConsumeNext(s: State): State
    requires ConsumeEnabled(s)
  {
    match s.consumer
    case Receiving =>
      if s.queue != [] then s.(consumer := Concealing(s.queue[0]), queue := s.queue[1..])
      else s.(consumer := Exited, ack := true)
    case Concealing(_) => s
    case Writing(f) => s.(consumer := Putting(f.buf), output := s.output + [f.line])
    case Putting(buf) => s.(consumer := Receiving, pool := s.pool + [buf])
    case Exited => s
  }

  predicate Enabled(s: State, e: Event) {
    match e
    case Produce(_) => ProduceEnabled(s)
    case Consume => ConsumeEnabled(s)
    case Conceal(_) => s.consumer.Concealing?
  }

  /** conceal is applied to every line; the line itself says what has to be concealed. */
  function Apply(s: State, e: Event, conceal: Line -> Line): State
    requires Enabled(s, e)
  {
    match e
    case Produce(grown) => ProduceNext(s, grown)
    case Consume => ConsumeNext(s)
    case Conceal(found) =>
      var f := s.consumer.f;
      if found then
        s.(consumer := Writing(Filled(s.made, conceal(f.line))), made := s.made + 1)
      else
        s.(consumer := Writing(f.(line := conceal(f.line))))
  }

  ghost predicate Run(s: State, es: seq<Event>, conceal: Line -> Line, t: State)
    decreases |es|
  {
    if es == [] then s == t
    else Enabled(s, es[0]) && Run(Apply(s, es[0], conceal), es[1..], conceal, t)
  }

  // ----- Order -----

  function Concealed(lines: seq<Line>, conceal: Line -> Line): (r: seq<Line>)
    ensures |r| == |lines|
  {
    seq(|lines|, i requires 0 <= i < |lines| => conceal(lines[i]))
  }

  function LinesOf(queue: seq<Filled>): (r: seq<Line>)
    ensures |r| == |queue|
  {
    seq(|queue|, i requires 0 <= i < |queue| => queue[i].line)
  }

  /** The line with the consumer that has not been written yet, as it will be written. */
  function InHand(c: Consumer, conceal: Line -> Line): seq<Line> {
    match c
    case Concealing(f) => [conceal(f.line)]
    case Writing(f) => [f.line]
    case _ => []
  }

  function ToSend(p: Producer): seq<Line> {
    if p.Sending? then [p.f.line] else []
  }

  /** What has been written, what is under way, and what is still to be logged, in order. */
  function Passage(s: State, conceal: Line -> Line): seq<Line> {
    s.output + InHand(s.consumer, conceal) + Concealed(LinesOf(s.queue) + ToSend(s.producer) + s.todo, conceal)
  }

  // ----- Buffers -----

  function BuffersOf(queue: seq<Filled>): multiset<Buffer> {
    if queue == [] then multiset{} else multiset{queue[0].buf} + BuffersOf(queue[1..])
  }

  function ProducerBuffer(p: Producer): multiset<Buffer> {
    if p.Sending? then multiset{p.f.buf} else multiset{}
  }

  function ConsumerBuffer(c: Consumer): multiset<Buffer> {
    match c
    case Concealing(f) => multiset{f.buf}
    case Writing(f) => multiset{f.buf}
    case Putting(buf) => multiset{buf}
    case _ => multiset{}
  }

  /** The buffers in all four places. */
  function Buffers(s: State): multiset<Buffer> {
    multiset(s.pool) + ProducerBuffer(s.producer) + BuffersOf(s.queue) + ConsumerBuffer(s.consumer)
  }

  predicate Once(m: multiset<Buffer>, b: Buffer) {
    m[b] <= 1
  }

  /** No buffer is in two places, and none is one that is still to be allocated. */
  ghost predicate Owned(s: State) {
    && (forall b: Buffer :: Once(Buffers(s), b))
    && (forall b: Buffer :: b in Buffers(s) ==> b < s.made)
  }

  /** Who has finished what: the queue is closed after the last line, the consumer leaves when it is
      closed and empty, and the producer after the consumer. */
  predicate Phases(s: State) {
    && |s.queue| <= QUEUE
    && (s.closed <==> s.producer.Waiting? || s.producer.Finished?)
    && (s.closed ==> s.todo == [])
    && (s.ack ==> s.consumer.Exited? && s.producer.Waiting?)
    && (s.producer.Finished? ==> s.consumer.Exited?)
    && (s.consumer.Exited? ==> s.closed && s.queue == [] && (s.ack || s.producer.Finished?))
  }

  ghost predicate Inv(s: State) {
    Phases(s) && Owned(s)
  }

  lemma StartHolds(lines: seq<Line>, pool: seq<Buffer>, made: nat, conceal: Line -> Line)
    requires (forall b :: Once(multiset(pool), b)) && (forall b :: b in multiset(pool) ==> b < made)
    ensures Inv(Start(lines, pool, made))
    ensures Passage(Start(lines, pool, made), conceal) == Concealed(lines, conceal)
  {
    var s := Start(lines, pool, made);
    assert Buffers(s) == multiset(pool);
    assert LinesOf(s.queue) + ToSend(s.producer) + s.todo == lines;
  }

  // ----- Every step keeps the buffers apart -----

  lemma {:induction false} BuffersSnoc(queue: seq<Filled>, f: Filled)
    ensures BuffersOf(queue + [f]) == BuffersOf(queue) + multiset{f.buf}
  {
    if queue != [] {
      BuffersSnoc(queue[1..], f);
      assert (queue + [f])[1..] == queue[1..] + [f];
    }
  }

  /** Buffers move from one place to another, or one is allocated. */
  ghost predicate Moved(s: State, t: State) {
    || (t.made == s.made && Buffers(t) == Buffers(s))
    || (t.made == s.made + 1 && Buffers(t) <= Buffers(s) + multiset{s.made})
  }

  lemma PoolShrinks(pool: seq<Buffer>)
    requires pool != []
    ensures multiset(pool) == multiset(PoolLeft(pool)) + multiset{pool[|pool| - 1]}
  {
    assert pool == PoolLeft(pool) + [pool[|pool| - 1]];
  }

  lemma FormatMoves(s: State, grown: bool)
    requires s.producer.Formatting? && s.todo != []
    ensures Moved(s, Format(s, grown))
  {
    var t, rest := Format(s, grown), BuffersOf(s.queue) + ConsumerBuffer(s.consumer);
    if s.pool != [] { PoolShrinks(s.pool); }
    assert Buffers(s) == multiset(s.pool) + rest;
    assert Buffers(t) == multiset(t.pool) + ProducerBuffer(t.producer) + rest;
  }

  lemma SendMoves(s: State, grown: bool)
    requires s.producer.Sending? && ProduceEnabled(s)
    ensures Moved(s, ProduceNext(s, grown))
  {
    BuffersSnoc(s.queue, s.producer.f);
  }

  lemma ReceiveMoves(s: State)
    requires s.consumer.Receiving? && s.queue != []
    ensures Moved(s, ConsumeNext(s))
  {
    var rest, f := BuffersOf(s.queue[1..]), multiset{s.queue[0].buf};
    assert BuffersOf(s.queue) == f + rest;
    assert BuffersOf(s.queue) + ConsumerBuffer(s.consumer) == rest + f;
  }

  lemma PutMoves(s: State)
    requires s.consumer.Putting?
    ensures Moved(s, ConsumeNext(s))
  {
    assert multiset(s.pool + [s.consumer.buf]) == multiset(s.pool) + multiset{s.consumer.buf};
  }

  lemma ConsumeMoves(s: State)
    requires ConsumeEnabled(s)
    ensures Moved(s, ConsumeNext(s))
  {
    if s.consumer.Receiving? && s.queue != [] {
      ReceiveMoves(s);
    } else if s.consumer.Putting? {
      PutMoves(s);
    }
  }

  lemma ProduceMoves(s: State, grown: bool)
    requires ProduceEnabled(s)
    ensures Moved(s, ProduceNext(s, grown))
  {
    if s.producer.Formatting? && s.todo != [] {
      FormatMoves(s, grown);
    } else if s.producer.Sending? {
      SendMoves(s, grown);
    }
  }

  lemma ConcealMoves(s: State, found: bool, conceal: Line -> Line)
    requires s.consumer.Concealing?
    ensures Moved(s, Apply(s, Conceal(found), conceal))
  {
    var t, others := Apply(s, Conceal(found), conceal),
      multiset(s.pool) + ProducerBuffer(s.producer) + BuffersOf(s.queue);
    assert Buffers(s) == others + ConsumerBuffer(s.consumer);
    assert Buffers(t) == others + ConsumerBuffer(t.consumer);
  }

  lemma BuffersMove(s: State, e: Event, conceal: Line -> Line)
    requires Enabled(s, e)
    ensures Moved(s, Apply(s, e, conceal))
  {
    match e
    case Produce(grown) => ProduceMoves(s, grown);
    case Consume => ConsumeMoves(s);
    case Conceal(found) => ConcealMoves(s, found, conceal);
  }

  lemma OwnedKept(s: State, e: Event, conceal: Line -> Line)
    requires Owned(s) && Enabled(s, e)
    ensures Owned(Apply(s, e, conceal))
  {
    var t := Apply(s, e, conceal);
    BuffersMove(s, e, conceal);
    if t.made != s.made {
      forall b: Buffer
        ensures Once(Buffers(t), b) && (b in Buffers(t) ==> b < t.made)
      {
        assert Once(Buffers(s), b) && (b in Buffers(s) ==> b < s.made);
        assert Buffers(t)[b] <= (Buffers(s) + multiset{s.made})[b];
      }
    }
  }

  lemma PhasesKept(s: State, e: Event, conceal: Line -> Line)
    requires Phases(s) && Enabled(s, e)
    ensures Phases(Apply(s, e, conceal))
  {
  }

  // ----- Every step keeps the order -----

  lemma ConcealedConcat(a: seq<Line>, b: seq<Line>, conceal: Line -> Line)
    ensures Concealed(a + b, conceal) == Concealed(a, conceal) + Concealed(b, conceal)
  {
  }

  lemma ProducePassage(s: State, grown: bool, conceal: Line -> Line)
    requires ProduceEnabled(s)
    ensures Passage(ProduceNext(s, grown), conceal) == Passage(s, conceal)
  {
    var t := ProduceNext(s, grown);
    if s.producer.Formatting? && s.todo != [] {
      assert s.todo == [s.todo[0]] + s.todo[1..];
      assert LinesOf(t.queue) + ToSend(t.producer) + t.todo == LinesOf(s.queue) + ToSend(s.producer) + s.todo;
    } else if s.producer.Sending? {
      assert LinesOf(s.queue + [s.producer.f]) == LinesOf(s.queue) + [s.producer.f.line];
      assert LinesOf(t.queue) + ToSend(t.producer) + t.todo == LinesOf(s.queue) + ToSend(s.producer) + s.todo;
    }
  }

  lemma ConsumePassage(s: State, conceal: Line -> Line)
    requires ConsumeEnabled(s)
    ensures Passage(ConsumeNext(s), conceal) == Passage(s, conceal)
  {
    if s.consumer.Receiving? && s.queue != [] {
      var f, rest := s.queue[0], LinesOf(s.queue[1..]) + ToSend(s.producer) + s.todo;
      assert LinesOf(s.queue) == [f.line] + LinesOf(s.queue[1..]);
      assert LinesOf(s.queue) + ToSend(s.producer) + s.todo == [f.line] + rest;
      ConcealedConcat([f.line], rest, conceal);
      assert Concealed([f.line], conceal) == [conceal(f.line)];
    }
  }

  /** Nothing overtakes: every step keeps the concatenation of what is written, under way and to come. */
  lemma PassageKept(s: State, e: Event, conceal: Line -> Line)
    requires Enabled(s, e)
    ensures Passage(Apply(s, e, conceal), conceal) == Passage(s, conceal)
  {
    match e
    case Produce(grown) => ProducePassage(s, grown, conceal);
    case Consume => ConsumePassage(s, conceal);
    case Conceal(_) =>
  }

  // ----- Progress -----

  function ProducerLeft(p: Producer): nat {
    match p
    case Formatting => 2
    case Sending(_) => 7
    case Waiting => 1
    case Finished => 0
  }

  function ConsumerLeft(c: Consumer): nat {
    match c
    case Receiving => 1
    case Concealing(_) => 4
    case Writing(_) => 3
    case Putting(_) => 2
    case Exited => 0
  }

  /** How many steps are left: six for a line to be formatted, five once it is in its buffer, four in the queue. */
  function Rank(s: State): nat {
    6 * |s.todo| + ProducerLeft(s.producer) + 4 * |s.queue| + ConsumerLeft(s.consumer)
  }

  lemma StepsRunOut(s: State, e: Event, conceal: Line -> Line)
    requires Enabled(s, e)
    ensures Rank(Apply(s, e, conceal)) == Rank(s) - 1
  {
  }

  /** Until the producer has its acknowledgement, one of the two sides can go on. */
  lemma NoDeadlock(s: State) returns (e: Event)
    requires Phases(s) && !s.producer.Finished?
    ensures Enabled(s, e)
  {
    if s.consumer.Concealing? {
      e := Conceal(false);
    } else if ConsumeEnabled(s) {
      e := Consume;
    } else {
      e := Produce(false);
    }
  }

  // ----- Every run -----

  lemma {:induction false} RunKeeps(s: State, es: seq<Event>, conceal: Line -> Line, t: State)
    requires Inv(s) && Run(s, es, conceal, t)
    ensures Inv(t) && Passage(t, conceal) == Passage(s, conceal) && Rank(t) == Rank(s) - |es|
    decreases |es|
  {
    if es != [] {
      PhasesKept(s, es[0], conceal);
      OwnedKept(s, es[0], conceal);
      PassageKept(s, es[0], conceal);
      StepsRunOut(s, es[0], conceal);
      RunKeeps(Apply(s, es[0], conceal), es[1..], conceal, t);
    }
  }

  /** No buffer is in two of pool, producer, queue and consumer, nor twice in one of them. */
  lemma NoBufferTwice(s: State, b: Buffer)
    requires Owned(s)
    ensures multiset(s.pool)[b] + ProducerBuffer(s.producer)[b] + BuffersOf(s.queue)[b] + ConsumerBuffer(s.consumer)[b] <= 1
  {
    assert Once(Buffers(s), b);
  }

  /** In every state of every run from any pool of distinct buffers: the lines written are a prefix of the
      lines logged, concealed; the run can go on or has ended; and when it has ended all lines are written.
      It ends after a fixed number of steps, whatever the interleaving. */
  lemma EveryRun(lines: seq<Line>, pool: seq<Buffer>, made: nat, es: seq<Event>, conceal: Line -> Line, t: State)
    requires (forall b :: Once(multiset(pool), b)) && (forall b :: b in multiset(pool) ==> b < made)
    requires Run(Start(lines, pool, made), es, conceal, t)
    ensures Owned(t) && |t.queue| <= QUEUE
    ensures t.output <= Concealed(lines, conceal)
    ensures !t.producer.Finished? ==> exists e :: Enabled(t, e)
    ensures t.producer.Finished? ==> t.output == Concealed(lines, conceal) && t.consumer.Exited? && t.queue == []
    ensures |es| + Rank(t) == 6 * |lines| + 3
  {
    StartHolds(lines, pool, made, conceal);
    RunKeeps(Start(lines, pool, made), es, conceal, t);
    if t.producer.Finished? {
      assert LinesOf(t.queue) + ToSend(t.producer) + t.todo == [];
    } else {
      var e := NoDeadlock(t);
    }
  }

  // ----- The pool is used -----

  function Held(s: State): nat {
    (if s.producer.Sending? then 1 else 0) + |s.queue| + if s.consumer.Receiving? || s.consumer.Exited? then 0 else 1
  }

  /** How many buffers there are, in all four places. */
  function BufferCount(s: State): nat {
    |s.pool| + Held(s)
  }

  lemma {:induction false} QueueSize(queue: seq<Filled>)
    ensures |BuffersOf(queue)| == |queue|
  {
    if queue != [] {
      QueueSize(queue[1..]);
    }
  }

  lemma BufferCountIsSize(s: State)
    ensures BufferCount(s) == |Buffers(s)|
  {
    QueueSize(s.queue);
    assert |multiset(s.pool)| == |s.pool|;
  }

  /** A buffer is added only if the pool is empty: eight in the queue, one with each side. */
  lemma CountKept(s: State, e: Event, conceal: Line -> Line)
    requires Phases(s) && Enabled(s, e)
    ensures var t := Apply(s, e, conceal);
            BufferCount(t) == BufferCount(s) || (s.pool == [] && BufferCount(t) == BufferCount(s) + 1 <= QUEUE + 2)
  {
  }

  /** In every run there are never more than ten buffers, or those there were at the start if they are more. */
  lemma {:induction false} BuffersBounded(s: State, es: seq<Event>, conceal: Line -> Line, t: State, bound: nat)
    requires Phases(s) && Run(s, es, conceal, t) && BufferCount(s) <= bound && QUEUE + 2 <= bound
    ensures |Buffers(t)| <= bound
    decreases |es|
  {
    if es == [] {
      BufferCountIsSize(t);
    } else {
      PhasesKept(s, es[0], conceal);
      CountKept(s, es[0], conceal);
      BuffersBounded(Apply(s, es[0], conceal), es[1..], conceal, t, bound);
    }
  }

  /** From the start of a run, in particular from an empty pool. */
  lemma TenBuffersAreEnough(lines: seq<Line>, pool: seq<Buffer>, made: nat, es: seq<Event>, conceal: Line -> Line, t: State)
    requires Run(Start(lines, pool, made), es, conceal, t)
    ensures |Buffers(t)| <= if |pool| <= 10 then 10 else |pool|
  {
    BuffersBounded(Start(lines, pool, made), es, conceal, t, if |pool| <= 10 then 10 else |pool|);
  }
}
