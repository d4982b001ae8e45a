/** The retry worker over the in-process queue (queue/queue.go, Worker.handle): any number of
    workers, each popping, running and settling one job at a time, in every interleaving. */
module Worker {
  import opened Prelude
  import opened JobQueue

  /** 2^attempts, clamped so that the multiplication with the backoff cannot overflow. */
  function BackoffMultiplier(attempts: int): nat {
    Pow2(if attempts < 0 then 0 else if attempts > 16 then 16 else attempts)
  }

  lemma {:induction false} Pow2Grows(m: nat, n: nat)
    requires m <= n
    ensures 1 <= Pow2(m) <= Pow2(n)
    decreases n
  {
    if m < n {
      Pow2Grows(m, n - 1);
    } else if n > 0 {
      Pow2Grows(n - 1, n - 1);
    }
  }

  /** Each retry doubles the delay until the clamp, and the delay never passes 65536 times the backoff. */
  lemma BackoffDoubles(attempts: int)
    ensures 0 <= attempts < 16 ==> BackoffMultiplier(attempts + 1) == 2 * BackoffMultiplier(attempts)
    ensures 1 <= BackoffMultiplier(attempts) <= 65536
    ensures attempts <= 0 ==> BackoffMultiplier(attempts) == 1
    ensures attempts >= 16 ==> BackoffMultiplier(attempts) == 65536
  {
    var n := if attempts < 0 then 0 else if attempts > 16 then 16 else attempts;
    Pow2Grows(0, n);
    Pow2Grows(n, 16);
    assert Pow2(16) == 65536 by {
      assert Pow2(4) == 16;
      assert Pow2(8) == 16 * Pow2(4);
      assert Pow2(12) == 16 * Pow2(8);
      assert Pow2(16) == 16 * Pow2(12);
    }
  }

  datatype Config = Config(maxRetry: int, backoff: Time)

  /** What a worker does with a job once its handler has returned. */
  datatype Verdict = Done | Dropped | Retry(delay: Time)

  function Judge(cfg: Config, j: Job, ok: bool): Verdict {
    if ok then Done
    else if j.attempts + 1 >= cfg.maxRetry then Dropped
    else Retry(cfg.backoff * BackoffMultiplier(j.attempts))
  }

  // ---- The code ----

  class Worker {
    const cfg: Config

    constructor (cfg: Config)
      ensures this.cfg == cfg
    {
      this.cfg := cfg;
    }

    /** What handle does with a popped job, when no one else uses the queue meanwhile. known says
        whether a handler is registered and ok whether it succeeds. */
    method Handle(queue: MemoryQueue, j: Job, known: bool, ok: bool, now: Time, ghost q: Queue) returns (invoked: bool, reported: bool)
      requires queue.Valid() && queue.Shows(q) && q.clock == now
      modifies queue, queue.slots
      ensures queue.Valid()
      ensures invoked == known && reported == (known && Judge(cfg, j, ok).Dropped?)
      ensures if known && Judge(cfg, j, ok).Retry? && j.id in q.inflight then
                var mid := Step(q, QueueEvent.NackTake(j.id, Judge(cfg, j, ok).delay)).value;
                queue.Shows(Step(mid, QueueEvent.NackPut(|q.moving|, now)).value)
              else queue.Shows(q.(inflight := q.inflight - {j.id}))
    {
      if !known {
        queue.Ack(j.id, q);
        return false, false;
      }
      if ok {
        queue.Ack(j.id, q);
        return true, false;
      }
      if j.attempts + 1 >= cfg.maxRetry {
        queue.Ack(j.id, q);
        return true, true;
      }
      var delay := cfg.backoff * BackoffMultiplier(j.attempts);
      ghost var mid := Step(q, QueueEvent.NackTake(j.id, delay)).value;
      var taken := queue.NackTake(j.id, delay, q);
      if taken.Some? {
        queue.NackPut(taken.value, delay, now, mid, |q.moving|);
      }
      return true, false;
    }
  }

  /** The job a worker holds, before and after its handler has run. */
  datatype Hand = Popped(job: Job) | Ran(job: Job, ok: bool)

  /** The queue and the workers' hands; and, which the code does not keep, the attempts each job
      was pushed with, how often its handler ran, and how often it was reported as failed. */
  datatype System = System(q: Queue, hands: map<nat, Hand>, first: map<Id, int>, runs: map<Id, nat>, failures: map<Id, nat>)

  datatype Event =
    | Enqueue(job: Job)
    | Tick(now: Time)
    | Promote(read: Time)
    | Take(worker: nat)
    | Drop(worker: nat)              // no handler is registered for the job
    | Invoke(worker: nat, ok: bool)  // a panic is a failure
    | Settle(worker: nat)
    | PutBack(i: nat, read: Time)

  function Lift(s: System, q: Option<Queue>): Option<System> {
    match q case None => None case Some(q') => Some(s.(q := q'))
  }

  function WorkerStep(cfg: Config, s: System, e: Event): Option<System> {
    match e
    case Enqueue(j) =>
      if j.id in s.q.pushed then None
      else
        Some(System(Step(s.q, QueueEvent.Push(j)).value, s.hands, s.first[j.id := j.attempts], s.runs[j.id := 0], s.failures[j.id := 0]))
    case Tick(now) => Lift(s, Step(s.q, QueueEvent.Tick(now)))
    case Promote(read) => Lift(s, Step(s.q, QueueEvent.Promote(read)))
    case PutBack(i, read) => Lift(s, Step(s.q, QueueEvent.NackPut(i, read)))
    case Take(w) =>
      if w in s.hands || s.q.ready == [] then None
      else Some(s.(q := Step(s.q, QueueEvent.Pop).value, hands := s.hands[w := Popped(s.q.ready[0])]))
    case Drop(w) =>
      if w !in s.hands || !s.hands[w].Popped? then None
      else Some(s.(q := Step(s.q, QueueEvent.Ack(s.hands[w].job.id)).value, hands := s.hands - {w}))
    case Invoke(w, ok) =>
      if w !in s.hands || !s.hands[w].Popped? then None
      else
        var j := s.hands[w].job;
        Some(s.(hands := s.hands[w := Ran(j, ok)], runs := s.runs[j.id := Tally(s.runs, j.id) + 1]))
    case Settle(w) =>
      if w !in s.hands || !s.hands[w].Ran? then None
      else
        var j := s.hands[w].job;
        var s' := s.(hands := s.hands - {w});
        match Judge(cfg, j, s.hands[w].ok)
        case Done => Some(s'.(q := Step(s.q, QueueEvent.Ack(j.id)).value))
        case Dropped => Some(s'.(q := Step(s.q, QueueEvent.Ack(j.id)).value, failures := s.failures[j.id := Tally(s.failures, j.id) + 1]))
        case Retry(delay) => Some(s'.(q := Step(s.q, QueueEvent.NackTake(j.id, delay)).value))
  }

  function Tally(m: map<Id, nat>, id: Id): nat {
    if id in m then m[id] else 0
  }

  /** How often a job's handler may run. */
  function Limit(cfg: Config, first: int): nat {
    if cfg.maxRetry - first > 1 then cfg.maxRetry - first else 1
  }

  /** A job that is yet to be run has been run once for every attempt since it was pushed, and
      may be run again. */
  ghost predicate Waiting(cfg: Config, runs: map<Id, nat>, first: map<Id, int>, j: Job) {
    && j.id in runs && j.id in first
    && runs[j.id] == j.attempts - first[j.id]
    && (runs[j.id] == 0 || j.attempts < cfg.maxRetry)
  }

  ghost predicate JustRan(cfg: Config, runs: map<Id, nat>, first: map<Id, int>, j: Job) {
    && j.id in runs && j.id in first
    && runs[j.id] == j.attempts - first[j.id] + 1 >= 1
    && (runs[j.id] == 1 || j.attempts < cfg.maxRetry)
  }

  /** No handler has run more often than it may; a failure was reported once at most, when it had
      run as often as it may, and ended the job. */
  ghost predicate Recorded(cfg: Config, q: Queue, first: map<Id, int>, runs: map<Id, nat>, failures: map<Id, nat>) {
    && first.Keys == runs.Keys == failures.Keys == q.pushed
    && forall id | id in q.pushed ::
         && runs[id] <= Limit(cfg, first[id])
         && failures[id] <= 1
         && (failures[id] == 1 ==> runs[id] == Limit(cfg, first[id]) && id in q.acked)
  }

  ghost predicate QueueWaits(cfg: Config, q: Queue, runs: map<Id, nat>, first: map<Id, int>) {
    && (forall j | j in q.ready :: Waiting(cfg, runs, first, j))
    && (forall j | j in q.delayed :: Waiting(cfg, runs, first, j))
    && (forall m | m in q.moving :: Waiting(cfg, runs, first, m.job.(attempts := m.job.attempts + 1)))
  }

  ghost predicate HandHolds(cfg: Config, inflight: map<Id, Job>, hand: Hand, runs: map<Id, nat>, first: map<Id, int>) {
    && hand.job.id in inflight && inflight[hand.job.id] == hand.job
    && (if hand.Popped? then Waiting(cfg, runs, first, hand.job) else JustRan(cfg, runs, first, hand.job))
  }

  /** Workers hold distinct jobs, all of them in flight. */
  ghost predicate HandsHold(cfg: Config, inflight: map<Id, Job>, hands: map<nat, Hand>, runs: map<Id, nat>, first: map<Id, int>) {
    && (forall w | w in hands :: HandHolds(cfg, inflight, hands[w], runs, first))
    && (forall v, w | v in hands && w in hands && v != w :: hands[v].job.id != hands[w].job.id)
  }

  ghost predicate WorkerInv(cfg: Config, s: System) {
    && Inv(s.q)
    && Recorded(cfg, s.q, s.first, s.runs, s.failures)
    && QueueWaits(cfg, s.q, s.runs, s.first)
    && HandsHold(cfg, s.q.inflight, s.hands, s.runs, s.first)
  }

  // ---- A job in a worker's hand, or not yet pushed, is not waiting in the queue ----

  ghost predicate NotWaiting(q: Queue, id: Id) {
    && (forall j | j in q.ready :: j.id != id)
    && (forall j | j in q.delayed :: j.id != id)
    && (forall m | m in q.moving :: m.job.id != id)
  }

  lemma NoCountNotWaiting(q: Queue, id: Id)
    requires Count(q.ready, id) == Count(q.delayed, id) == Count(JobsOf(q.moving), id) == 0
    ensures NotWaiting(q, id)
  {
    forall j | j in q.ready ensures j.id != id {
      PresentIsCounted(q.ready, j);
    }
    forall j | j in q.delayed ensures j.id != id {
      PresentIsCounted(q.delayed, j);
    }
    forall m | m in q.moving ensures m.job.id != id {
      var i :| 0 <= i < |q.moving| && q.moving[i] == m;
      assert JobsOf(q.moving)[i] == m.job;
      PresentIsCounted(JobsOf(q.moving), m.job);
    }
  }

  lemma OutIsNotWaiting(q: Queue, id: Id)
    requires Inv(q) && id in q.inflight
    ensures id in q.pushed && id !in q.acked && NotWaiting(q, id)
  {
    assert Places(q, id) == 1;
    NoCountNotWaiting(q, id);
  }

  lemma UnpushedIsNowhere(q: Queue, id: Id)
    requires Inv(q) && id !in q.pushed
    ensures id !in q.inflight && id !in q.acked && NotWaiting(q, id)
  {
    assert Places(q, id) == 0;
    NoCountNotWaiting(q, id);
  }

  // ---- Records of one job do not matter to the others ----

  ghost predicate SameBut(id: Id, runs: map<Id, nat>, first: map<Id, int>, runs': map<Id, nat>, first': map<Id, int>) {
    forall k | k != id && k in runs && k in first :: k in runs' && k in first' && runs'[k] == runs[k] && first'[k] == first[k]
  }

  lemma OthersWait(cfg: Config, q: Queue, id: Id, runs: map<Id, nat>, first: map<Id, int>, runs': map<Id, nat>, first': map<Id, int>)
    requires QueueWaits(cfg, q, runs, first) && NotWaiting(q, id) && SameBut(id, runs, first, runs', first')
    ensures QueueWaits(cfg, q, runs', first')
  {
  }

  lemma OthersHold(cfg: Config, inflight: map<Id, Job>, hands: map<nat, Hand>, id: Id, runs: map<Id, nat>, first: map<Id, int>, runs': map<Id, nat>, first': map<Id, int>)
    requires HandsHold(cfg, inflight, hands, runs, first) && SameBut(id, runs, first, runs', first')
    requires forall w | w in hands :: hands[w].job.id != id
    ensures HandsHold(cfg, inflight, hands, runs', first')
  {
    forall w | w in hands ensures HandHolds(cfg, inflight, hands[w], runs', first') {
      assert HandHolds(cfg, inflight, hands[w], runs, first);
    }
  }

  // ---- Each step ----

  lemma EnqueueKeeps(cfg: Config, s: System, j: Job, q': Queue)
    requires WorkerInv(cfg, s) && j.id !in s.q.pushed && Some(q') == Step(s.q, QueueEvent.Push(j))
    ensures WorkerInv(cfg, System(q', s.hands, s.first[j.id := j.attempts], s.runs[j.id := 0], s.failures[j.id := 0]))
  {
    var first', runs' := s.first[j.id := j.attempts], s.runs[j.id := 0];
    StepKeepsInv(s.q, QueueEvent.Push(j));
    UnpushedIsNowhere(s.q, j.id);
    assert SameBut(j.id, s.runs, s.first, runs', first');
    OthersWait(cfg, s.q, j.id, s.runs, s.first, runs', first');
    forall w | w in s.hands ensures s.hands[w].job.id != j.id {
      assert HandHolds(cfg, s.q.inflight, s.hands[w], s.runs, s.first);
    }
    OthersHold(cfg, s.q.inflight, s.hands, j.id, s.runs, s.first, runs', first');
    assert Waiting(cfg, runs', first', j);
    EnqueueQueueWaits(cfg, s.q, j, q', runs', first');
  }

  lemma EnqueueQueueWaits(cfg: Config, q: Queue, j: Job, q': Queue, runs: map<Id, nat>, first: map<Id, int>)
    requires QueueWaits(cfg, q, runs, first) && Waiting(cfg, runs, first, j)
    requires q'.moving == q.moving
    requires (q'.ready == q.ready + [j] && q'.delayed == q.delayed) || (q'.ready == q.ready && q'.delayed == q.delayed + [j])
    ensures QueueWaits(cfg, q', runs, first)
  {
  }

  lemma PromoteKeeps(cfg: Config, s: System, read: Time)
    requires WorkerInv(cfg, s) && Step(s.q, QueueEvent.Promote(read)).Some?
    ensures WorkerInv(cfg, s.(q := Step(s.q, QueueEvent.Promote(read)).value))
  {
    StepKeepsInv(s.q, QueueEvent.Promote(read));
    PromotionTakesTheDue(s.q.delayed, read);
  }

  lemma PutBackKeeps(cfg: Config, s: System, i: nat, read: Time, q': Queue)
    requires WorkerInv(cfg, s) && Step(s.q, QueueEvent.NackPut(i, read)) == Some(q')
    ensures WorkerInv(cfg, s.(q := q'))
  {
    StepKeepsInv(s.q, QueueEvent.NackPut(i, read));
    var m := s.q.moving[i];
    assert m in s.q.moving;
    var again := Retried(m.job, m.retryAfter, read);
    assert Waiting(cfg, s.runs, s.first, m.job.(attempts := m.job.attempts + 1));
    assert Waiting(cfg, s.runs, s.first, again);
    EnqueueQueueWaits(cfg, s.q.(moving := Without(s.q.moving, i)), again, q', s.runs, s.first);
  }

  lemma TakeKeeps(cfg: Config, s: System, w: nat, q': Queue)
    requires WorkerInv(cfg, s) && w !in s.hands && s.q.ready != [] && Step(s.q, Pop) == Some(q')
    ensures WorkerInv(cfg, s.(q := q', hands := s.hands[w := Popped(s.q.ready[0])]))
  {
    StepKeepsInv(s.q, Pop);
    NothingIsPoppedEarly(s.q);
    var j := s.q.ready[0];
    assert j in s.q.ready;
    assert QueueWaits(cfg, q', s.runs, s.first) by {
      assert forall k | k in s.q.ready[1..] :: k in s.q.ready;
    }
    var hands := s.hands[w := Popped(j)];
    forall v | v in hands ensures HandHolds(cfg, q'.inflight, hands[v], s.runs, s.first) && (v != w ==> hands[v].job.id != j.id) {
      if v != w {
        assert HandHolds(cfg, s.q.inflight, s.hands[v], s.runs, s.first);
      }
    }
  }

  lemma InvokeRecords(cfg: Config, q: Queue, j: Job, first: map<Id, int>, runs: map<Id, nat>, failures: map<Id, nat>)
    requires Recorded(cfg, q, first, runs, failures) && Waiting(cfg, runs, first, j)
    requires j.id in q.pushed && j.id !in q.acked
    ensures Recorded(cfg, q, first, runs[j.id := runs[j.id] + 1], failures)
  {
  }

  lemma InvokeKeeps(cfg: Config, s: System, w: nat, ok: bool)
    requires WorkerInv(cfg, s) && w in s.hands && s.hands[w].Popped?
    ensures var j := s.hands[w].job;
            j.id in s.runs && WorkerInv(cfg, s.(hands := s.hands[w := Ran(j, ok)], runs := s.runs[j.id := s.runs[j.id] + 1]))
  {
    var j := s.hands[w].job;
    assert HandHolds(cfg, s.q.inflight, s.hands[w], s.runs, s.first);
    var runs := s.runs[j.id := s.runs[j.id] + 1];
    OutIsNotWaiting(s.q, j.id);
    InvokeRecords(cfg, s.q, j, s.first, s.runs, s.failures);
    assert SameBut(j.id, s.runs, s.first, runs, s.first);
    OthersWait(cfg, s.q, j.id, s.runs, s.first, runs, s.first);
    OthersHold(cfg, s.q.inflight, s.hands - {w}, j.id, s.runs, s.first, runs, s.first);
    HandsWithOne(cfg, s.q.inflight, s.hands, w, Ran(j, ok), runs, s.first);
  }

  lemma HandsWithOne(cfg: Config, inflight: map<Id, Job>, hands: map<nat, Hand>, w: nat, hand: Hand, runs: map<Id, nat>, first: map<Id, int>)
    requires HandsHold(cfg, inflight, hands - {w}, runs, first) && HandHolds(cfg, inflight, hand, runs, first)
    requires forall v | v in hands && v != w :: hands[v].job.id != hand.job.id
    ensures HandsHold(cfg, inflight, hands[w := hand], runs, first)
  {
    forall v | v in hands && v != w ensures v in hands - {w} && (hands - {w})[v] == hands[v] {
    }
  }

  lemma HandsWithout(cfg: Config, inflight: map<Id, Job>, hands: map<nat, Hand>, w: nat, runs: map<Id, nat>, first: map<Id, int>)
    requires HandsHold(cfg, inflight, hands, runs, first) && w in hands
    ensures HandsHold(cfg, inflight - {hands[w].job.id}, hands - {w}, runs, first)
  {
    forall v | v in hands - {w} ensures HandHolds(cfg, inflight - {hands[w].job.id}, hands[v], runs, first) {
      assert HandHolds(cfg, inflight, hands[v], runs, first);
    }
  }

  /** A failed run is the last one allowed exactly when the worker gives the job up. */
  lemma LastTryIsDropped(cfg: Config, runs: map<Id, nat>, first: map<Id, int>, j: Job)
    requires JustRan(cfg, runs, first, j)
    ensures Judge(cfg, j, false).Dropped? <==> runs[j.id] == Limit(cfg, first[j.id])
    ensures Judge(cfg, j, false).Retry? ==> Waiting(cfg, runs, first, j.(attempts := j.attempts + 1))
  {
  }

  /** The job of a hand is acknowledged, reported as failed first if it was given up. */
  lemma AckKeeps(cfg: Config, s: System, w: nat, reported: bool, q': Queue)
    requires WorkerInv(cfg, s) && w in s.hands && Step(s.q, QueueEvent.Ack(s.hands[w].job.id)) == Some(q')
    requires s.hands[w].job.id in s.runs && s.hands[w].job.id in s.first && s.hands[w].job.id in s.failures
    requires reported ==> s.runs[s.hands[w].job.id] == Limit(cfg, s.first[s.hands[w].job.id])
    ensures var id := s.hands[w].job.id;
            WorkerInv(cfg, s.(q := q', hands := s.hands - {w}, failures := if reported then s.failures[id := s.failures[id] + 1] else s.failures))
  {
    var id := s.hands[w].job.id;
    assert HandHolds(cfg, s.q.inflight, s.hands[w], s.runs, s.first);
    StepKeepsInv(s.q, QueueEvent.Ack(id));
    OutIsNotWaiting(s.q, id);
    HandsWithout(cfg, s.q.inflight, s.hands, w, s.runs, s.first);
    AckRecords(cfg, s.q, q', id, reported, s.first, s.runs, s.failures);
  }

  lemma AckRecords(cfg: Config, q: Queue, q': Queue, id: Id, reported: bool, first: map<Id, int>, runs: map<Id, nat>, failures: map<Id, nat>)
    requires Recorded(cfg, q, first, runs, failures) && id in q.pushed && id !in q.acked
    requires q'.pushed == q.pushed && q'.acked == q.acked + {id}
    requires reported ==> runs[id] == Limit(cfg, first[id])
    ensures Recorded(cfg, q', first, runs, if reported then failures[id := failures[id] + 1] else failures)
  {
  }

  lemma RetryKeeps(cfg: Config, s: System, w: nat, delay: Time, q': Queue)
    requires WorkerInv(cfg, s) && w in s.hands && Step(s.q, QueueEvent.NackTake(s.hands[w].job.id, delay)) == Some(q')
    requires Waiting(cfg, s.runs, s.first, s.hands[w].job.(attempts := s.hands[w].job.attempts + 1))
    ensures WorkerInv(cfg, s.(q := q', hands := s.hands - {w}))
  {
    var id := s.hands[w].job.id;
    assert HandHolds(cfg, s.q.inflight, s.hands[w], s.runs, s.first);
    StepKeepsInv(s.q, QueueEvent.NackTake(id, delay));
    HandsWithout(cfg, s.q.inflight, s.hands, w, s.runs, s.first);
    assert QueueWaits(cfg, q', s.runs, s.first) by {
      assert q'.moving == s.q.moving + [Move(s.hands[w].job, delay)];
    }
  }

  lemma SettleKeeps(cfg: Config, s: System, w: nat)
    requires WorkerInv(cfg, s) && WorkerStep(cfg, s, Settle(w)).Some?
    ensures WorkerInv(cfg, WorkerStep(cfg, s, Settle(w)).value)
  {
    var j := s.hands[w].job;
    assert HandHolds(cfg, s.q.inflight, s.hands[w], s.runs, s.first);
    OutIsNotWaiting(s.q, j.id);
    LastTryIsDropped(cfg, s.runs, s.first, j);
    match Judge(cfg, j, s.hands[w].ok)
    case Done => AckKeeps(cfg, s, w, false, Step(s.q, QueueEvent.Ack(j.id)).value);
    case Dropped => AckKeeps(cfg, s, w, true, Step(s.q, QueueEvent.Ack(j.id)).value);
    case Retry(delay) => RetryKeeps(cfg, s, w, delay, Step(s.q, QueueEvent.NackTake(j.id, delay)).value);
  }

  lemma DropKeeps(cfg: Config, s: System, w: nat)
    requires WorkerInv(cfg, s) && WorkerStep(cfg, s, Drop(w)).Some?
    ensures WorkerInv(cfg, WorkerStep(cfg, s, Drop(w)).value)
  {
    var id := s.hands[w].job.id;
    assert HandHolds(cfg, s.q.inflight, s.hands[w], s.runs, s.first);
    OutIsNotWaiting(s.q, id);
    AckKeeps(cfg, s, w, false, Step(s.q, QueueEvent.Ack(id)).value);
  }

  lemma QueueStepKeeps(cfg: Config, s: System, e: Event)
    requires WorkerInv(cfg, s) && (e.Tick? || e.Promote? || e.PutBack?) && WorkerStep(cfg, s, e).Some?
    ensures WorkerInv(cfg, WorkerStep(cfg, s, e).value)
  {
    match e
    case Tick(now) => StepKeepsInv(s.q, QueueEvent.Tick(now));
    case Promote(read) => PromoteKeeps(cfg, s, read);
    case PutBack(i, read) => PutBackKeeps(cfg, s, i, read, Step(s.q, QueueEvent.NackPut(i, read)).value);
    case _ =>
  }

  lemma EnqueueStepKeeps(cfg: Config, s: System, j: Job)
    requires WorkerInv(cfg, s) && WorkerStep(cfg, s, Enqueue(j)).Some?
    ensures WorkerInv(cfg, WorkerStep(cfg, s, Enqueue(j)).value)
  {
    EnqueueKeeps(cfg, s, j, Step(s.q, QueueEvent.Push(j)).value);
  }

  lemma TakeStepKeeps(cfg: Config, s: System, w: nat)
    requires WorkerInv(cfg, s) && WorkerStep(cfg, s, Take(w)).Some?
    ensures WorkerInv(cfg, WorkerStep(cfg, s, Take(w)).value)
  {
    TakeKeeps(cfg, s, w, Step(s.q, Pop).value);
  }

  lemma InvokeIs(cfg: Config, s: System, w: nat, ok: bool)
    requires w in s.hands && s.hands[w].Popped? && s.hands[w].job.id in s.runs
    ensures var j := s.hands[w].job;
            WorkerStep(cfg, s, Invoke(w, ok)) == Some(s.(hands := s.hands[w := Ran(j, ok)], runs := s.runs[j.id := s.runs[j.id] + 1]))
  {
  }

  lemma InvokeStepKeeps(cfg: Config, s: System, w: nat, ok: bool)
    requires WorkerInv(cfg, s) && w in s.hands && s.hands[w].Popped?
    ensures WorkerStep(cfg, s, Invoke(w, ok)).Some? && WorkerInv(cfg, WorkerStep(cfg, s, Invoke(w, ok)).value)
  {
    InvokeKeeps(cfg, s, w, ok);
    InvokeIs(cfg, s, w, ok);
  }

  lemma WorkerStepKeepsInv(cfg: Config, s: System, e: Event)
    requires WorkerInv(cfg, s) && WorkerStep(cfg, s, e).Some?
    ensures WorkerInv(cfg, WorkerStep(cfg, s, e).value)
  {
    match e
    case Enqueue(j) => EnqueueStepKeeps(cfg, s, j);
    case Take(w) => TakeStepKeeps(cfg, s, w);
    case Drop(w) => DropKeeps(cfg, s, w);
    case Invoke(w, ok) => InvokeStepKeeps(cfg, s, w, ok);
    case Settle(w) => SettleKeeps(cfg, s, w);
    case _ => QueueStepKeeps(cfg, s, e);
  }

  ghost predicate Run(cfg: Config, states: seq<System>, events: seq<Event>, start: Time) {
    && |states| == |events| + 1
    && states[0] == System(EMPTY.(clock := start), map[], map[], map[], map[])
    && forall i | 0 <= i < |events| :: WorkerStep(cfg, states[i], events[i]) == Some(states[i + 1])
  }

  lemma RunStepKeepsInv(cfg: Config, states: seq<System>, events: seq<Event>, start: Time, i: nat)
    requires Run(cfg, states, events, start) && i < |events| && WorkerInv(cfg, states[i])
    ensures WorkerInv(cfg, states[i + 1])
  {
    assert WorkerStep(cfg, states[i], events[i]) == Some(states[i + 1]);
    WorkerStepKeepsInv(cfg, states[i], events[i]);
  }

  lemma {:induction false} EveryStateHasInv(cfg: Config, states: seq<System>, events: seq<Event>, start: Time, i: nat)
    requires Run(cfg, states, events, start) && i < |states|
    ensures WorkerInv(cfg, states[i])
  {
    if i > 0 {
      EveryStateHasInv(cfg, states, events, start, i - 1);
      RunStepKeepsInv(cfg, states, events, start, i - 1);
    }
  }

  /** In every run with any number of workers, a job dispatched with no attempts behind it has its
      handler invoked at most max(1, maxRetry) times and is reported as failed at most once, and
      only after exactly that many. */
  lemma HandlersRunAtMostMaxRetryTimes(cfg: Config, states: seq<System>, events: seq<Event>, start: Time, i: nat, id: Id)
    requires Run(cfg, states, events, start) && i < |states|
    requires id in states[i].first && states[i].first[id] == 0
    ensures id in states[i].runs && id in states[i].failures
    ensures var limit := if cfg.maxRetry > 1 then cfg.maxRetry else 1;
            && states[i].runs[id] <= limit
            && states[i].failures[id] <= 1
            && (states[i].failures[id] == 1 ==> states[i].runs[id] == limit && id in states[i].q.acked)
  {
    EveryStateHasInv(cfg, states, events, start, i);
  }

  /** A job is reported as failed exactly when the last allowed run of its handler fails. */
  lemma ReportedExactlyAtTheLastTry(cfg: Config, s: System, w: nat)
    requires WorkerInv(cfg, s) && w in s.hands && s.hands[w].Ran?
    ensures WorkerStep(cfg, s, Settle(w)).Some?
    ensures s.hands[w].job.id in s.runs && s.hands[w].job.id in s.failures
    ensures var j := s.hands[w].job;
            var s' := WorkerStep(cfg, s, Settle(w)).value;
            && s.failures[j.id] == 0
            && (s'.failures[j.id] == 1 <==> !s.hands[w].ok && s.runs[j.id] == Limit(cfg, s.first[j.id]))
  {
    var j := s.hands[w].job;
    assert HandHolds(cfg, s.q.inflight, s.hands[w], s.runs, s.first);
    OutIsNotWaiting(s.q, j.id);
    LastTryIsDropped(cfg, s.runs, s.first, j);
  }
}
