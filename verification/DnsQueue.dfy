/**
 The bounded DNS work queue of src/client/mod.rs as a step system. Any number of
 producers call `enqueue` and any number of workers call `dequeue_one`; each
 critical section is one step, and so is each notification sent after the lock
 is released. Deadlines may pass and waits may end spuriously at any time.
 */
module DnsQueue {

  const MAX_DNS_QUEUE_DEPTH: nat := 32

  /** A producer is also the name of its job. */
  type Producer = nat
  type Worker = nat

  /** A producer that has pushed still owes `not_empty` a notification. */
  datatype Calling = Running | Parked | Woken | Pushed | Enqueued | TimedOut

  /** A worker that has popped still owes `not_full` a notification. */
  datatype Serving = Looking | Asleep | Roused | Popped

  datatype State = State(
    jobs: seq<Producer>,
    producers: map<Producer, Calling>,
    workers: map<Worker, Serving>,
    expired: set<Producer>,
    enqueued: seq<Producer>,
    dequeued: seq<Producer>)

  /** The keys that `m` sends to `v`. */
  function Those<K, V(==)>(m: map<K, V>, v: V): set<K> {
    set k | k in m && m[k] == v
  }

  function Initial(workers: set<Worker>): State {
    State([], map[], map w | w in workers :: Looking, {}, [], [])
  }

  function MoveProducer(s: State, p: Producer, to: Calling): State {
    s.(producers := s.producers[p := to])
  }

  function MoveWorker(s: State, w: Worker, to: Serving): State {
    s.(workers := s.workers[w := to])
  }

  predicate At(s: State, p: Producer, c: Calling) {
    p in s.producers && s.producers[p] == c
  }

  predicate Doing(s: State, w: Worker, c: Serving) {
    w in s.workers && s.workers[w] == c
  }

  /** `notify_one` on `not_full`: wakes one parked producer, if there is one. */
  ghost predicate NotifiesProducer(s: State, s': State) {
    if Those(s.producers, Parked) == {} then s' == s
    else exists p :: At(s, p, Parked) && s' == MoveProducer(s, p, Woken)
  }

  /** `notify_one` on `not_empty`. */
  ghost predicate NotifiesWorker(s: State, s': State) {
    if Those(s.workers, Asleep) == {} then s' == s
    else exists w :: Doing(s, w, Asleep) && s' == MoveWorker(s, w, Roused)
  }

  datatype Action =
    | Call(p: Producer)          // a producer calls enqueue
    | Expire(p: Producer)        // its deadline passes
    | TryEnqueue(p: Producer)    // one turn of the enqueue loop, under the lock
    | WakeProducer(p: Producer)  // its wait times out or ends spuriously
    | NotifyWorker(p: Producer)  // the notification after a push
    | TryDequeue(w: Worker)      // one turn of the dequeue loop, under the lock
    | WakeWorker(w: Worker)      // a spurious wakeup
    | NotifyProducer(w: Worker)  // the notification after a pop

  /**
   One turn of the enqueue loop. A caller that gives up while a slot is free may
   have used up a wakeup meant for another producer, so it passes it on.
   */
  ghost predicate TriesEnqueue(s: State, p: Producer, s': State) {
    if p in s.expired then
      var gone := MoveProducer(s, p, TimedOut);
      if |s.jobs| < MAX_DNS_QUEUE_DEPTH then NotifiesProducer(gone, s') else s' == gone
    else if |s.jobs| < MAX_DNS_QUEUE_DEPTH then
      s' == MoveProducer(s, p, Pushed).(jobs := s.jobs + [p], enqueued := s.enqueued + [p])
    else
      s' == MoveProducer(s, p, Parked)
  }

  ghost predicate TriesDequeue(s: State, w: Worker, s': State) {
    if s.jobs != [] then
      s' == MoveWorker(s, w, Popped).(jobs := s.jobs[1..], dequeued := s.dequeued + [s.jobs[0]])
    else
      s' == MoveWorker(s, w, Asleep)
  }

  ghost predicate Step(s: State, a: Action, s': State) {
    match a
    case Call(p) => p !in s.producers && s' == MoveProducer(s, p, Running)
    case Expire(p) => s' == s.(expired := s.expired + {p})
    case TryEnqueue(p) => (At(s, p, Running) || At(s, p, Woken)) && TriesEnqueue(s, p, s')
    case WakeProducer(p) => At(s, p, Parked) && s' == MoveProducer(s, p, Woken)
    case NotifyWorker(p) => At(s, p, Pushed) && NotifiesWorker(MoveProducer(s, p, Enqueued), s')
    case TryDequeue(w) => (Doing(s, w, Looking) || Doing(s, w, Roused)) && TriesDequeue(s, w, s')
    case WakeWorker(w) => Doing(s, w, Asleep) && s' == MoveWorker(s, w, Roused)
    case NotifyProducer(w) => Doing(s, w, Popped) && NotifiesProducer(MoveWorker(s, w, Looking), s')
  }

  /** `states` is what the queue goes through as `actions` are taken in turn. */
  ghost predicate IsRun(states: seq<State>, actions: seq<Action>) {
    && |states| == |actions| + 1
    && forall i :: 0 <= i < |actions| ==> Step(states[i], actions[i], states[i + 1])
  }

  // What every state keeps

  /**
   No lost wakeup: while a producer is parked, every free slot is matched by a
   woken producer that has not run yet or by a worker about to notify; while a
   worker is asleep, every job is matched likewise.
   */
  ghost predicate NoLostWakeup(s: State) {
    && (Those(s.producers, Parked) != {} ==>
          MAX_DNS_QUEUE_DEPTH - |s.jobs| <= |Those(s.producers, Woken)| + |Those(s.workers, Popped)|)
    && (Those(s.workers, Asleep) != {} ==>
          |s.jobs| <= |Those(s.workers, Roused)| + |Those(s.producers, Pushed)|)
  }

  /** First in, first out; nothing is lost or invented, and the bound holds. */
  ghost predicate Orderly(s: State) {
    && |s.jobs| <= MAX_DNS_QUEUE_DEPTH
    && s.enqueued == s.dequeued + s.jobs
  }

  /** A job enters the queue's history once, and exactly when its caller succeeds. */
  ghost predicate Accounted(s: State) {
    && (forall p :: p in s.enqueued <==> At(s, p, Pushed) || At(s, p, Enqueued))
    && forall i, j :: 0 <= i < j < |s.enqueued| ==> s.enqueued[i] != s.enqueued[j]
  }

  /** Moving a key changes the counts by at most one. */
  lemma Moved<K, V>(m: map<K, V>, k: K, to: V, v: V)
    ensures Those(m[k := to], v) == if v == to then Those(m, v) + {k} else Those(m, v) - {k}
    ensures |Those(m[k := to], v)| == |Those(m, v)| + (if v == to then 1 else 0) - (if k in m && m[k] == v then 1 else 0)
  {
    var was, now := Those(m, v), Those(m[k := to], v);
    assert now == if v == to then was + {k} else was - {k};
    if v == to {
      assert now == (was - {k}) + {k};
    }
  }

  /** The sizes that the wakeup argument is about, after moving one producer. */
  lemma ProducerMoved(s: State, p: Producer, to: Calling)
    ensures forall v :: |Those(s.producers[p := to], v)|
                        == |Those(s.producers, v)| + (if v == to then 1 else 0) - (if At(s, p, v) then 1 else 0)
  {
    forall v ensures |Those(s.producers[p := to], v)|
                     == |Those(s.producers, v)| + (if v == to then 1 else 0) - (if At(s, p, v) then 1 else 0)
    {
      Moved(s.producers, p, to, v);
    }
  }

  lemma WorkerMoved(s: State, w: Worker, to: Serving)
    ensures forall v :: |Those(s.workers[w := to], v)|
                        == |Those(s.workers, v)| + (if v == to then 1 else 0) - (if Doing(s, w, v) then 1 else 0)
  {
    forall v ensures |Those(s.workers[w := to], v)|
                     == |Those(s.workers, v)| + (if v == to then 1 else 0) - (if Doing(s, w, v) then 1 else 0)
    {
      Moved(s.workers, w, to, v);
    }
  }

  /** The counts of the two kinds of thread, as the wakeup argument uses them. */
  datatype Counts = Counts(parked: nat, woken: nat, pushed: nat, asleep: nat, roused: nat, popped: nat)

  ghost function CountsOf(s: State): Counts {
    Counts(|Those(s.producers, Parked)|, |Those(s.producers, Woken)|, |Those(s.producers, Pushed)|,
           |Those(s.workers, Asleep)|, |Those(s.workers, Roused)|, |Those(s.workers, Popped)|)
  }

  /** A notification on `not_full` turns a parked producer into a woken one. */
  lemma NotifiesProducerCounts(s: State, s': State)
    requires NotifiesProducer(s, s')
    ensures var c := CountsOf(s);
              CountsOf(s') == if c.parked == 0 then c else c.(parked := c.parked - 1, woken := c.woken + 1)
    ensures s' == s.(producers := s'.producers)
    ensures forall p :: (At(s', p, Pushed) <==> At(s, p, Pushed)) && (At(s', p, Enqueued) <==> At(s, p, Enqueued))
  {
    if Those(s.producers, Parked) != {} {
      var p :| At(s, p, Parked) && s' == MoveProducer(s, p, Woken);
      ProducerMoved(s, p, Woken);
    }
  }

  lemma NotifiesWorkerCounts(s: State, s': State)
    requires NotifiesWorker(s, s')
    ensures var c := CountsOf(s);
              CountsOf(s') == if c.asleep == 0 then c else c.(asleep := c.asleep - 1, roused := c.roused + 1)
    ensures s' == s.(workers := s'.workers)
  {
    if Those(s.workers, Asleep) != {} {
      var w :| Doing(s, w, Asleep) && s' == MoveWorker(s, w, Roused);
      WorkerMoved(s, w, Roused);
    }
  }

  lemma EnqueueKeepsWakeups(s: State, p: Producer, s': State)
    requires NoLostWakeup(s) && Orderly(s) && Step(s, TryEnqueue(p), s')
    ensures NoLostWakeup(s')
  {
    ProducerMoved(s, p, TimedOut);
    ProducerMoved(s, p, Pushed);
    ProducerMoved(s, p, Parked);
    if p in s.expired && |s.jobs| < MAX_DNS_QUEUE_DEPTH {
      NotifiesProducerCounts(MoveProducer(s, p, TimedOut), s');
    }
    assert NoWaste(|s.jobs|, CountsOf(s));
    assert NoWaste(|s'.jobs|, CountsOf(s'));
  }

  /** `NoLostWakeup` in terms of the counts. */
  predicate NoWaste(depth: nat, c: Counts) {
    && (c.parked > 0 ==> MAX_DNS_QUEUE_DEPTH - depth <= c.woken + c.popped)
    && (c.asleep > 0 ==> depth <= c.roused + c.pushed)
  }

  lemma DequeueKeepsWakeups(s: State, w: Worker, s': State)
    requires NoLostWakeup(s) && Step(s, TryDequeue(w), s')
    ensures NoLostWakeup(s')
  {
    WorkerMoved(s, w, Popped);
    WorkerMoved(s, w, Asleep);
    assert NoWaste(|s.jobs|, CountsOf(s));
    assert NoWaste(|s'.jobs|, CountsOf(s'));
  }

  lemma NotifyKeepsWakeups(s: State, a: Action, s': State)
    requires NoLostWakeup(s) && Step(s, a, s') && (a.NotifyWorker? || a.NotifyProducer?)
    ensures NoLostWakeup(s')
  {
    assert NoWaste(|s.jobs|, CountsOf(s));
    match a {
      case NotifyWorker(p) =>
        ProducerMoved(s, p, Enqueued);
        NotifiesWorkerCounts(MoveProducer(s, p, Enqueued), s');
      case NotifyProducer(w) =>
        WorkerMoved(s, w, Looking);
        NotifiesProducerCounts(MoveWorker(s, w, Looking), s');
    }
    assert NoWaste(|s'.jobs|, CountsOf(s'));
  }

  lemma OtherKeepsWakeups(s: State, a: Action, s': State)
    requires NoLostWakeup(s) && Step(s, a, s') && (a.Call? || a.Expire? || a.WakeProducer? || a.WakeWorker?)
    ensures NoLostWakeup(s')
  {
    assert NoWaste(|s.jobs|, CountsOf(s));
    match a {
      case Call(p) => ProducerMoved(s, p, Running);
      case Expire(_) =>
      case WakeProducer(p) => ProducerMoved(s, p, Woken);
      case WakeWorker(w) => WorkerMoved(s, w, Roused);
    }
    assert NoWaste(|s'.jobs|, CountsOf(s'));
  }

  lemma StepKeepsWakeups(s: State, a: Action, s': State)
    requires NoLostWakeup(s) && Orderly(s) && Step(s, a, s')
    ensures NoLostWakeup(s')
  {
    hide NoLostWakeup, Orderly;
    match a
    case TryEnqueue(p) => EnqueueKeepsWakeups(s, p, s');
    case TryDequeue(w) => DequeueKeepsWakeups(s, w, s');
    case NotifyWorker(_) => NotifyKeepsWakeups(s, a, s');
    case NotifyProducer(_) => NotifyKeepsWakeups(s, a, s');
    case _ => OtherKeepsWakeups(s, a, s');
  }

  /** Every step either pushes, pops or leaves the queue and its history alone. */
  lemma StepKeepsOrder(s: State, a: Action, s': State)
    requires Orderly(s) && Step(s, a, s')
    ensures Orderly(s')
    ensures s'.enqueued == s.enqueued || (s'.enqueued == s.enqueued + [s'.enqueued[|s.enqueued|]] && a.TryEnqueue?)
    ensures s.dequeued <= s'.dequeued
  {
    if a.TryDequeue? && s.jobs != [] {
      assert s.dequeued + s.jobs == (s.dequeued + [s.jobs[0]]) + s.jobs[1..];
    }
  }

  lemma StepKeepsAccounts(s: State, a: Action, s': State)
    requires Accounted(s) && Step(s, a, s')
    ensures Accounted(s')
  {
    hide Those, NotifiesProducer, NotifiesWorker;
    match a
    case TryEnqueue(p) =>
      assert p !in s.enqueued;
      if p in s.expired && |s.jobs| < MAX_DNS_QUEUE_DEPTH {
        NotifiesProducerCounts(MoveProducer(s, p, TimedOut), s');
      }
    case NotifyProducer(w) => NotifiesProducerCounts(MoveWorker(s, w, Looking), s');
    case NotifyWorker(p) => NotifiesWorkerCounts(MoveProducer(s, p, Enqueued), s');
    case _ =>
  }

  ghost predicate Inv(s: State) {
    NoLostWakeup(s) && Orderly(s) && Accounted(s)
  }

  /**
   In every interleaving and at every point of it: no wakeup is lost, at most 32
   jobs wait, service is first in, first out, and a job is in the history once
   exactly when its caller has succeeded.
   */
  lemma {:induction false} RunKeepsInv(states: seq<State>, actions: seq<Action>, workers: set<Worker>, n: nat)
    requires IsRun(states, actions) && states[0] == Initial(workers) && n <= |actions|
    ensures Inv(states[n])
  {
    if n == 0 {
      assert Those(states[0].workers, Asleep) == {};
    } else {
      RunKeepsInv(states, actions, workers, n - 1);
      var s, a, s' := states[n - 1], actions[n - 1], states[n];
      assert Step(s, a, s');
      StepKeepsWakeups(s, a, s');
      StepKeepsOrder(s, a, s');
      StepKeepsAccounts(s, a, s');
    }
  }

  /** Nobody is between a wakeup and its turn, or between a push or pop and its notification. */
  ghost predicate Quiescent(s: State) {
    && Those(s.producers, Woken) == {} && Those(s.producers, Pushed) == {}
    && Those(s.workers, Roused) == {} && Those(s.workers, Popped) == {}
  }

  /**
   So no thread waits for what is already there. Once all wakeups have been acted
   on, a producer is parked only while the queue is full and a worker is asleep
   only while it is empty; in particular the two never wait for each other.
   */
  lemma NobodyWaitsInVain(states: seq<State>, actions: seq<Action>, workers: set<Worker>, n: nat)
    requires IsRun(states, actions) && states[0] == Initial(workers) && n <= |actions|
    requires Quiescent(states[n])
    ensures Those(states[n].producers, Parked) != {} ==> |states[n].jobs| == MAX_DNS_QUEUE_DEPTH
    ensures Those(states[n].workers, Asleep) != {} ==> states[n].jobs == []
    ensures Those(states[n].producers, Parked) == {} || Those(states[n].workers, Asleep) == {}
  {
    RunKeepsInv(states, actions, workers, n);
  }

  /** A caller whose deadline has passed before it got through never adds a job. */
  lemma {:induction false} ExpiredNeverEnqueues(states: seq<State>, actions: seq<Action>, i: nat, j: nat, p: Producer)
    requires IsRun(states, actions) && i <= j <= |actions|
    requires p in states[i].expired && p !in states[i].enqueued
    ensures p in states[j].expired && p !in states[j].enqueued
    decreases j
  {
    if i < j {
      ExpiredNeverEnqueues(states, actions, i, j - 1, p);
      var s, a, s' := states[j - 1], actions[j - 1], states[j];
      assert Step(s, a, s');
      ExpiredStep(s, a, s', p);
    }
  }

  lemma ExpiredStep(s: State, a: Action, s': State, p: Producer)
    requires Step(s, a, s') && p in s.expired && p !in s.enqueued
    ensures p in s'.expired && p !in s'.enqueued
  {
  }

  /** Jobs leave in the order they came: what was served is a prefix of what was accepted. */
  lemma ServedInOrder(states: seq<State>, actions: seq<Action>, workers: set<Worker>, n: nat)
    requires IsRun(states, actions) && states[0] == Initial(workers) && n <= |actions|
    ensures states[n].dequeued <= states[n].enqueued
    ensures |states[n].enqueued| - |states[n].dequeued| <= MAX_DNS_QUEUE_DEPTH
    ensures forall p :: p in states[n].dequeued ==> At(states[n], p, Pushed) || At(states[n], p, Enqueued)
  {
    RunKeepsInv(states, actions, workers, n);
  }
}
