/** The bounded queue between the one worker thread, which fetches batches, and the threads that call
    next(), as interleaved steps under one mutex. */
module BatchQueue {
  import opened Arithmetic
  import opened CyclicStream
  import opened Wrappers

  const MAX_ITEM := 256

  datatype Thread = Worker | Consumer(id: nat)

  /** Where the worker is in its loop.  It holds the mutex while fetching, testing and after a push. */
  datatype WorkerAt<T> =
    | LoopHead
    | Fetching
    | TestingFull(hand: T)
    | WaitingForRoom(hand: T)
    | Pushed

  /** Where a consumer is in next().  It holds the mutex while testing and after a pop. */
  datatype ConsumerAt<T> =
    | Outside
    | TestingEmpty
    | WaitingForItem
    | Popped(got: T)

  /** `delivered` lists what has been popped, oldest first. */
  datatype State<T> = State(lock: Option<Thread>, worker: WorkerAt<T>, consumers: seq<ConsumerAt<T>>,
                            queue: seq<T>, iter: nat, delivered: seq<T>)

  function Initial<T>(consumers: nat): State<T> {
    State(None, LoopHead, seq(consumers, c => Outside), [], 0, [])
  }

  /** A thread can step unless it is after the mutex and another has it.  A wait may end any time, by
      notification or by timeout, once the mutex is free. */
  predicate Enabled<T>(s: State<T>, t: Thread) {
    match t
    case Worker => s.worker.LoopHead? || s.worker.WaitingForRoom? ==> s.lock.None?
    case Consumer(c) =>
      c < |s.consumers| && (s.consumers[c].Outside? || s.consumers[c].WaitingForItem? ==> s.lock.None?)
  }

  function WorkerStep<T>(batch: nat -> T, s: State<T>): State<T> {
    match s.worker
    case LoopHead => s.(lock := Some(Worker), worker := Fetching)
    case Fetching => s.(worker := TestingFull(batch(s.iter)), iter := s.iter + 1)
    case TestingFull(hand) =>
      if |s.queue| >= MAX_ITEM then s.(lock := None, worker := WaitingForRoom(hand))
      else s.(queue := s.queue + [hand], worker := Pushed)
    case WaitingForRoom(hand) => s.(lock := Some(Worker), worker := TestingFull(hand))
    case Pushed => s.(lock := None, worker := LoopHead)
  }

  function ConsumerStep<T>(s: State<T>, c: nat): State<T>
    requires c < |s.consumers|
  {
    match s.consumers[c]
    case Outside => s.(lock := Some(Consumer(c)), consumers := s.consumers[c := TestingEmpty])
    case TestingEmpty =>
      if |s.queue| == 0 then s.(lock := None, consumers := s.consumers[c := WaitingForItem])
      else s.(consumers := s.consumers[c := Popped(s.queue[0])], queue := s.queue[1..],
              delivered := s.delivered + [s.queue[0]])
    case WaitingForItem => s.(lock := Some(Consumer(c)), consumers := s.consumers[c := TestingEmpty])
    case Popped(_) => s.(lock := None, consumers := s.consumers[c := Outside])
  }

  function Step<T>(batch: nat -> T, s: State<T>, t: Thread): State<T>
    requires Enabled(s, t)
  {
    match t
    case Worker => WorkerStep(batch, s)
    case Consumer(c) => ConsumerStep(s, c)
  }

  /** Batches the dataset has handed to the worker. */
  function Fetched<T>(batch: nat -> T, count: nat): (batches: seq<T>)
    ensures |batches| == count && forall k :: 0 <= k < count ==> batches[k] == batch(k)
  {
    seq(count, k requires 0 <= k < count => batch(k))
  }

  function Hand<T>(w: WorkerAt<T>): seq<T> {
    if w.TestingFull? || w.WaitingForRoom? then [w.hand] else []
  }

  /** Nothing is lost, doubled or reordered, the queue is bounded, and the mutex has one holder. */
  ghost predicate Inv<T(!new)>(batch: nat -> T, s: State<T>) {
    && s.delivered + s.queue + Hand(s.worker) == Fetched(batch, s.iter)
    && |s.queue| <= MAX_ITEM
    && (s.lock == Some(Worker) <==> s.worker.Fetching? || s.worker.TestingFull? || s.worker.Pushed?)
    && (forall c :: 0 <= c < |s.consumers| ==>
          (s.lock == Some(Consumer(c)) <==> s.consumers[c].TestingEmpty? || s.consumers[c].Popped?))
    && (s.lock.Some? && s.lock.value.Consumer? ==> s.lock.value.id < |s.consumers|)
    && (forall c :: 0 <= c < |s.consumers| && s.consumers[c].Popped? ==>
          |s.delivered| > 0 && s.consumers[c].got == s.delivered[|s.delivered| - 1])
  }

  lemma InitialInv<T(!new)>(batch: nat -> T, consumers: nat)
    ensures Inv(batch, Initial(consumers))
  {
  }

  /** Every step of every thread keeps the invariant. */
  lemma StepKeepsInv<T(!new)>(batch: nat -> T, s: State<T>, t: Thread)
    requires Inv(batch, s) && Enabled(s, t)
    ensures Inv(batch, Step(batch, s, t))
  {
    var s' := Step(batch, s, t);
    if t.Worker? {
      match s.worker
      case Fetching =>
        assert Fetched(batch, s.iter + 1) == Fetched(batch, s.iter) + [batch(s.iter)];
      case TestingFull(hand) =>
        assert s.delivered + (s.queue + [hand]) + [] == s.delivered + s.queue + [hand];
      case _ =>
    } else if s.consumers[t.id].TestingEmpty? && |s.queue| > 0 {
      assert s'.delivered + s'.queue == s.delivered + s.queue;
    }
  }

  /** The state after a schedule: which thread goes when. */
  ghost predicate Possible<T(!new)>(batch: nat -> T, s: State<T>, schedule: seq<Thread>)
    decreases |schedule|
  {
    schedule == [] || (Enabled(s, schedule[0]) && Possible(batch, Step(batch, s, schedule[0]), schedule[1..]))
  }

  function After<T(!new)>(batch: nat -> T, s: State<T>, schedule: seq<Thread>): State<T>
    requires Possible(batch, s, schedule)
    decreases |schedule|
  {
    if schedule == [] then s else After(batch, Step(batch, s, schedule[0]), schedule[1..])
  }

  lemma {:induction false} RunKeepsInv<T(!new)>(batch: nat -> T, s: State<T>, schedule: seq<Thread>)
    requires Inv(batch, s) && Possible(batch, s, schedule)
    ensures Inv(batch, After(batch, s, schedule))
    decreases |schedule|
  {
    if schedule != [] {
      StepKeepsInv(batch, s, schedule[0]);
      RunKeepsInv(batch, Step(batch, s, schedule[0]), schedule[1..]);
    }
  }

  /** What the invariant means for the consumers. */
  lemma InvSays<T(!new)>(batch: nat -> T, s: State<T>)
    requires Inv(batch, s)
    ensures forall k :: 0 <= k < |s.delivered| ==> s.delivered[k] == batch(k)
    ensures forall k :: 0 <= k < |s.queue| ==> s.queue[k] == batch(|s.delivered| + k)
    ensures |s.queue| <= MAX_ITEM && |s.delivered| <= s.iter <= |s.delivered| + MAX_ITEM + 1
    ensures forall c :: 0 <= c < |s.consumers| && s.consumers[c].Popped? ==>
              |s.delivered| > 0 && s.consumers[c].got == batch(|s.delivered| - 1)
  {
    var all := s.delivered + s.queue + Hand(s.worker);
    assert all == Fetched(batch, s.iter);
    forall k | 0 <= k < |s.delivered| ensures s.delivered[k] == batch(k) {
      assert s.delivered[k] == all[k];
    }
    forall k | 0 <= k < |s.queue| ensures s.queue[k] == batch(|s.delivered| + k) {
      assert s.queue[k] == all[|s.delivered| + k];
    }
  }

  /** In every interleaving the k-th batch popped is batch k, whichever thread pops it, and the worker
      is at most a full queue and one batch ahead. */
  lemma DeliversInOrder<T(!new)>(batch: nat -> T, consumers: nat, schedule: seq<Thread>)
    requires Possible(batch, Initial(consumers), schedule)
    ensures var s := After(batch, Initial(consumers), schedule);
            && (forall k :: 0 <= k < |s.delivered| ==> s.delivered[k] == batch(k))
            && (forall k :: 0 <= k < |s.queue| ==> s.queue[k] == batch(|s.delivered| + k))
            && |s.queue| <= MAX_ITEM && |s.delivered| <= s.iter <= |s.delivered| + MAX_ITEM + 1
            && (forall c :: 0 <= c < |s.consumers| && s.consumers[c].Popped? ==>
                  |s.delivered| > 0 && s.consumers[c].got == batch(|s.delivered| - 1))
  {
    hide *;
    InitialInv(batch, consumers);
    RunKeepsInv(batch, Initial(consumers), schedule);
    InvSays(batch, After(batch, Initial(consumers), schedule));
  }

  /** What a dataset of several variables fetches: of each variable the same run of stream rows. */
  function BatchRows(sources: seq<Source>, batchSize: nat, iter: nat): seq<seq<seq<Byte>>>
    requires forall v :: 0 <= v < |sources| ==> sources[v].Valid()
  {
    seq(|sources|, v requires 0 <= v < |sources| =>
      seq(batchSize, j requires 0 <= j < batchSize => RowBytes(sources[v], Mul(iter, batchSize) + j)))
  }

  /** End to end: row `j` of the k-th batch delivered is stream row k * batchSize + j, for every
      variable. */
  lemma DeliversStreamRows(sources: seq<Source>, batchSize: nat, batch: nat -> seq<seq<seq<Byte>>>,
                           consumers: nat, schedule: seq<Thread>, k: nat, v: nat, j: nat)
    requires forall w :: 0 <= w < |sources| ==> sources[w].Valid()
    requires forall i :: batch(i) == BatchRows(sources, batchSize, i)
    requires Possible(batch, Initial(consumers), schedule)
    requires k < |After(batch, Initial(consumers), schedule).delivered| && v < |sources| && j < batchSize
    ensures var delivered := After(batch, Initial(consumers), schedule).delivered;
            && |delivered[k]| == |sources| && |delivered[k][v]| == batchSize
            && delivered[k][v][j] == RowBytes(sources[v], Mul(k, batchSize) + j)
  {
    DeliversInOrder(batch, consumers, schedule);
    assert batch(k) == BatchRows(sources, batchSize, k);
  }

  // ---- Progress --------------------------------------------------------------------------------

  /** The mutex's holder goes on; then a consumer if there is an item, else the worker. */
  function Next<T>(s: State<T>): Thread {
    if s.lock.Some? then s.lock.value else if |s.queue| > 0 then Consumer(0) else Worker
  }

  function Rank<T>(s: State<T>): nat
    requires s.lock.Some? && s.lock.value.Consumer? ==> s.lock.value.id < |s.consumers|
  {
    if s.lock == Some(Worker) then
      (match s.worker
       case Fetching => 5
       case TestingFull(_) => 4
       case _ => if |s.queue| > 0 then 3 else 7)
    else if s.lock.Some? then
      if |s.queue| == 0 then 7 else if s.consumers[s.lock.value.id].TestingEmpty? then 1 else 3
    else if |s.queue| > 0 then 2
    else 6
  }

  lemma NextMakesProgress<T(!new)>(batch: nat -> T, s: State<T>)
    requires Inv(batch, s) && |s.consumers| > 0
    ensures Enabled(s, Next(s))
    ensures var s' := Step(batch, s, Next(s));
            && |s'.consumers| == |s.consumers| && Inv(batch, s')
            && (|s'.delivered| == |s.delivered| + 1 || (s'.delivered == s.delivered && Rank(s') < Rank(s)))
  {
    StepKeepsInv(batch, s, Next(s));
  }

  /** From every reachable state some schedule delivers the next batch within seven steps: the threads
      never wait for each other for good. */
  lemma {:induction false} NextBatchWithinReach<T(!new)>(batch: nat -> T, s: State<T>) returns (schedule: seq<Thread>)
    requires Inv(batch, s) && |s.consumers| > 0
    ensures Possible(batch, s, schedule) && |schedule| <= Rank(s) <= 7
    ensures |After(batch, s, schedule).delivered| == |s.delivered| + 1
    decreases Rank(s)
  {
    NextMakesProgress(batch, s);
    var t := Next(s);
    var s' := Step(batch, s, t);
    var rest: seq<Thread> := [];
    if s'.delivered == s.delivered {
      rest := NextBatchWithinReach(batch, s');
    }
    schedule := [t] + rest;
    assert schedule[1..] == rest;
  }

  // ---- Fair runs -------------------------------------------------------------------------------

  /** An endless run: `who` steps at each moment, and `at` are the states. */
  ghost predicate Endless<T(!new)>(batch: nat -> T, at: nat -> State<T>, who: nat -> Thread) {
    forall i: nat :: Enabled(at(i), who(i)) && at(i + 1) == Step(batch, at(i), who(i))
  }

  /** `t` steps again and again. */
  ghost predicate Again(who: nat -> Thread, t: Thread) {
    forall n: nat :: StepsAfter(who, t, n)
  }

  ghost predicate StepsAfter(who: nat -> Thread, t: Thread, n: nat) {
    exists m: nat :: m >= n && who(m) == t
  }

  lemma {:induction false} EndlessInv<T(!new)>(batch: nat -> T, at: nat -> State<T>, who: nat -> Thread, n: nat)
    requires Endless(batch, at, who) && Inv(batch, at(0))
    ensures Inv(batch, at(n)) && |at(n).consumers| == |at(0).consumers|
  {
    if n > 0 {
      EndlessInv(batch, at, who, n - 1);
      assert at(n - 1 + 1) == Step(batch, at(n - 1), who(n - 1));
      StepKeepsInv(batch, at(n - 1), who(n - 1));
    }
  }

  /** The place of a thread in its loop. */
  ghost predicate SamePlace<T(!new)>(s: State<T>, s': State<T>, t: Thread) {
    match t
    case Worker => s'.worker == s.worker
    case Consumer(c) => |s'.consumers| == |s.consumers| && (c < |s.consumers| ==> s'.consumers[c] == s.consumers[c])
  }

  /** Nothing that was delivered is taken back, and the queue shrinks by deliveries only. */
  ghost predicate Ahead<T(!new)>(s: State<T>, s': State<T>) {
    |s'.delivered| > |s.delivered| || (|s'.delivered| == |s.delivered| && |s'.queue| >= |s.queue|)
  }

  lemma StepAhead<T(!new)>(batch: nat -> T, s: State<T>, who: Thread)
    requires Enabled(s, who)
    ensures Ahead(s, Step(batch, s, who))
    ensures forall t :: t != who ==> SamePlace(s, Step(batch, s, who), t)
  {
  }

  /** The next moment at which `t` steps: until then it stays where it is. */
  lemma {:induction false} NextTurn<T(!new)>(batch: nat -> T, at: nat -> State<T>, who: nat -> Thread, t: Thread, n: nat, bound: nat)
    returns (m: nat)
    requires Endless(batch, at, who) && n <= bound && who(bound) == t
    ensures n <= m <= bound && who(m) == t && SamePlace(at(n), at(m), t) && Ahead(at(n), at(m))
    decreases bound - n
  {
    if who(n) == t {
      m := n;
    } else {
      StepAhead(batch, at(n), who(n));
      assert at(n + 1) == Step(batch, at(n), who(n));
      m := NextTurn(batch, at, who, t, n + 1, bound);
    }
  }

  lemma TurnAfter(who: nat -> Thread, t: Thread, n: nat) returns (bound: nat)
    requires Again(who, t)
    ensures bound >= n && who(bound) == t
  {
    assert StepsAfter(who, t, n);
    bound :| bound >= n && who(bound) == t;
  }

  /** Steps the worker is away from a push while the queue is empty. */
  function ToPush<T>(w: WorkerAt<T>): nat {
    match w
    case Pushed => 4
    case LoopHead => 3
    case Fetching => 2
    case WaitingForRoom(_) => 2
    case TestingFull(_) => 1
  }

  /** The worker puts something into an empty queue, unless something is delivered before. */
  lemma {:induction false} QueueFills<T(!new)>(batch: nat -> T, at: nat -> State<T>, who: nat -> Thread, n: nat) returns (m: nat)
    requires Endless(batch, at, who) && Again(who, Worker)
    ensures m >= n && Ahead(at(n), at(m)) && (|at(m).delivered| > |at(n).delivered| || |at(m).queue| > 0)
    decreases ToPush(at(n).worker)
  {
    if |at(n).queue| > 0 {
      m := n;
    } else {
      var bound := TurnAfter(who, Worker, n);
      m := NextTurn(batch, at, who, Worker, n, bound);
      if |at(m).delivered| == |at(n).delivered| && |at(m).queue| == 0 {
        StepAhead(batch, at(m), Worker);
        assert at(m + 1) == Step(batch, at(m), Worker);
        m := m + 1;
        if |at(m).queue| == 0 {
          m := QueueFills(batch, at, who, m);
        }
      }
    }
  }

  /** Steps a consumer is away from taking an item. */
  function ToPop<T>(c: ConsumerAt<T>): nat {
    match c
    case Popped(_) => 2
    case Outside => 1
    case WaitingForItem => 1
    case TestingEmpty => 0
  }

  /** From a queue that is not empty, something is delivered. */
  lemma {:induction false} ItemTaken<T(!new)>(batch: nat -> T, at: nat -> State<T>, who: nat -> Thread, c: nat, n: nat) returns (m: nat)
    requires Endless(batch, at, who) && Again(who, Consumer(c)) && c < |at(n).consumers| && |at(n).queue| > 0
    ensures m >= n && |at(m).delivered| > |at(n).delivered|
    decreases ToPop(at(n).consumers[c])
  {
    var bound := TurnAfter(who, Consumer(c), n);
    m := NextTurn(batch, at, who, Consumer(c), n, bound);
    if |at(m).delivered| == |at(n).delivered| {
      StepAhead(batch, at(m), Consumer(c));
      assert at(m + 1) == Step(batch, at(m), Consumer(c));
      m := m + 1;
      if |at(m).delivered| == |at(n).delivered| {
        m := ItemTaken(batch, at, who, c, m);
      }
    }
  }

  /** In every endless run in which the worker and some consumer step again and again, whatever the other
      threads do, every batch is delivered some day. */
  lemma {:induction false} EveryBatchDelivered<T(!new)>(batch: nat -> T, at: nat -> State<T>, who: nat -> Thread, consumers: nat, c: nat, k: nat)
    returns (m: nat)
    requires Endless(batch, at, who) && at(0) == Initial(consumers)
    requires c < consumers && Again(who, Worker) && Again(who, Consumer(c))
    ensures |at(m).delivered| > k && at(m).delivered[k] == batch(k)
  {
    var n := 0;
    if k > 0 {
      n := EveryBatchDelivered(batch, at, who, consumers, c, k - 1);
    }
    InitialInv(batch, consumers);
    m := QueueFills(batch, at, who, n);
    if |at(m).delivered| == |at(n).delivered| {
      EndlessInv(batch, at, who, m);
      m := ItemTaken(batch, at, who, c, m);
    }
    EndlessInv(batch, at, who, m);
    InvSays(batch, at(m));
  }

  // ---- Such a run ------------------------------------------------------------------------------

  /** The worker fetches and pushes one batch, then consumer `c` takes it, and so on. */
  function Turn(c: nat): nat -> Thread { (n: nat) => if n % 7 < 4 then Worker else Consumer(c) }

  /** Where that leads. */
  function InTurn<T>(batch: nat -> T, consumers: nat, c: nat, n: nat): State<T>
    requires c < consumers
  {
    var k, idle := n / 7, seq(consumers, i => Outside);
    var s := State(None, LoopHead, idle, [], k, Fetched(batch, k));
    match n % 7
    case 0 => s
    case 1 => s.(lock := Some(Worker), worker := Fetching)
    case 2 => s.(lock := Some(Worker), worker := TestingFull(batch(k)), iter := k + 1)
    case 3 => s.(lock := Some(Worker), worker := Pushed, queue := [batch(k)], iter := k + 1)
    case 4 => s.(queue := [batch(k)], iter := k + 1)
    case 5 => s.(lock := Some(Consumer(c)), consumers := idle[c := TestingEmpty], queue := [batch(k)], iter := k + 1)
    case _ =>
      s.(lock := Some(Consumer(c)), consumers := idle[c := Popped(batch(k))], iter := k + 1, delivered := Fetched(batch, k + 1))
  }

  lemma TurnSteps<T>(batch: nat -> T, consumers: nat, c: nat, n: nat)
    requires c < consumers
    ensures var s := InTurn(batch, consumers, c, n);
            Enabled(s, Turn(c)(n)) && InTurn(batch, consumers, c, n + 1) == Step(batch, s, Turn(c)(n))
  {
    var k, idle := n / 7, seq(consumers, i => Outside);
    assert Fetched(batch, k + 1) == Fetched(batch, k) + [batch(k)];
    assert idle[c := TestingEmpty][c := Outside] == idle && idle[c := Popped(batch(k))][c := Outside] == idle;
    assert n % 7 < 6 ==> (n + 1) / 7 == k && (n + 1) % 7 == n % 7 + 1;
    assert n % 7 == 6 ==> (n + 1) / 7 == k + 1 && (n + 1) % 7 == 0;
  }

  /** There are endless runs in which worker and consumer step again and again, whatever the batches and
      however many other consumers there are. */
  lemma FairRun<T(!new)>(batch: nat -> T, consumers: nat, c: nat)
    requires c < consumers
    ensures var at, who := (n: nat) => InTurn(batch, consumers, c, n), Turn(c);
            && Endless(batch, at, who) && at(0) == Initial(consumers)
            && Again(who, Worker) && Again(who, Consumer(c))
  {
    var at, who := (n: nat) => InTurn(batch, consumers, c, n), Turn(c);
    forall i: nat ensures Enabled(at(i), who(i)) && at(i + 1) == Step(batch, at(i), who(i)) {
      TurnSteps(batch, consumers, c, i);
    }
    forall n: nat ensures StepsAfter(who, Worker, n) {
      assert who(7 * n) == Worker && 7 * n >= n;
    }
    forall n: nat ensures StepsAfter(who, Consumer(c), n) {
      assert (7 * n + 4) % 7 == 4 && who(7 * n + 4) == Consumer(c);
    }
    assert Fetched(batch, 0) == [];
    hide InTurn;
  }
}
