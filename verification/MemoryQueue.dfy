/** The in-process queue (queue/queue.go): its data structure, with the delayed list compacted in
    place, and every interleaving of its critical sections, the two of Nack among them. */
module JobQueue {
  import opened Prelude

  type Time = int

  type Id = int

  /** No time is Go's zero time: the job is available at once. */
  datatype Job = Job(id: Id, name: string, attempts: int, availableAt: Option<Time>)

  predicate AvailableBy(j: Job, now: Time) {
    j.availableAt.None? || j.availableAt.value <= now
  }

  // ---- Promotion of delayed jobs ----

  function Due(js: seq<Job>, now: Time): seq<Job> {
    if js == [] then []
    else
      var last := js[|js| - 1];
      Due(js[..|js| - 1], now) + (if AvailableBy(last, now) then [last] else [])
  }

  function Kept(js: seq<Job>, now: Time): seq<Job> {
    if js == [] then []
    else
      var last := js[|js| - 1];
      Kept(js[..|js| - 1], now) + (if AvailableBy(last, now) then [] else [last])
  }

  function Count(js: seq<Job>, id: Id): nat {
    if js == [] then 0 else (if js[0].id == id then 1 else 0) + Count(js[1..], id)
  }

  lemma {:induction false} CountOfConcat(a: seq<Job>, b: seq<Job>, id: Id)
    ensures Count(a + b, id) == Count(a, id) + Count(b, id)
    decreases |a|
  {
    if a == [] {
      assert a + b == b;
    } else {
      assert (a + b)[1..] == a[1..] + b;
      CountOfConcat(a[1..], b, id);
    }
  }

  lemma CountOfSnoc(a: seq<Job>, j: Job, id: Id)
    ensures Count(a + [j], id) == Count(a, id) + if j.id == id then 1 else 0
  {
    CountOfConcat(a, [j], id);
    assert [j][1..] == [];
  }

  lemma {:induction false} PresentIsCounted(js: seq<Job>, j: Job)
    requires j in js
    ensures Count(js, j.id) > 0
  {
    if js[0] != j {
      PresentIsCounted(js[1..], j);
    }
  }

  lemma {:induction false} PromotionKeepsCounts(js: seq<Job>, now: Time, id: Id)
    ensures Count(Due(js, now), id) + Count(Kept(js, now), id) == Count(js, id)
  {
    if js != [] {
      var before, last := js[..|js| - 1], js[|js| - 1];
      PromotionKeepsCounts(before, now, id);
      assert js == before + [last];
      CountOfSnoc(before, last, id);
      if AvailableBy(last, now) {
        CountOfSnoc(Due(before, now), last, id);
        assert Kept(before, now) + [] == Kept(before, now);
      } else {
        CountOfSnoc(Kept(before, now), last, id);
        assert Due(before, now) + [] == Due(before, now);
      }
    }
  }

  /** A promotion takes exactly the jobs that are due. */
  lemma {:induction false} PromotionTakesTheDue(js: seq<Job>, now: Time)
    ensures forall j :: j in Due(js, now) <==> j in js && AvailableBy(j, now)
    ensures forall j :: j in Kept(js, now) <==> j in js && !AvailableBy(j, now)
  {
    if js != [] {
      var before, last := js[..|js| - 1], js[|js| - 1];
      PromotionTakesTheDue(before, now);
      assert js == before + [last];
    }
  }

  // ---- The code ----

  /** The compaction after i of the jobs: kept of them at the front, the rest not yet overwritten. */
  ghost predicate Halfway(js: seq<Job>, now: Time, i: nat, kept: nat, before: seq<Job>, ready: seq<Job>, slots: seq<Job>) {
    && kept <= i <= |js| <= |slots|
    && ready == before + Due(js[..i], now)
    && slots[..kept] == Kept(js[..i], now)
    && slots[i..|js|] == js[i..]
  }

  lemma OneMorePromoted(js: seq<Job>, now: Time, i: nat, kept: nat, before: seq<Job>, ready: seq<Job>, slots: seq<Job>)
    requires Halfway(js, now, i, kept, before, ready, slots) && i < |js|
    ensures slots[i] == js[i]
    ensures AvailableBy(js[i], now) ==> Halfway(js, now, i + 1, kept, before, ready + [js[i]], slots)
    ensures !AvailableBy(js[i], now) ==> Halfway(js, now, i + 1, kept + 1, before, ready, slots[kept := js[i]])
  {
    assert slots[i] == slots[i..|js|][0];
    assert slots[i + 1..|js|] == slots[i..|js|][1..] == js[i + 1..];
    assert js[..i + 1][..i] == js[..i];
    if AvailableBy(js[i], now) {
      assert Kept(js[..i], now) + [] == Kept(js[..i], now);
    } else {
      assert slots[kept := js[i]][..kept + 1] == slots[..kept] + [js[i]];
      assert slots[kept := js[i]][i + 1..|js|] == slots[i + 1..|js|];
      assert Due(js[..i], now) + [] == Due(js[..i], now);
    }
  }

  class MemoryQueue {
    var ready: seq<Job>
    var slots: array<Job>
    var count: nat
    var inflight: map<Id, Job>

    /** The slice of delayed jobs ends inside its backing array. */
    ghost predicate Valid()
      reads this
    {
      count <= slots.Length
    }

    ghost function Delayed(): seq<Job>
      requires Valid()
      reads this, slots
    {
      slots[..count]
    }

    /** The queue's state is that of q, as far as the code keeps it. */
    ghost predicate Shows(q: Queue)
      requires Valid()
      reads this, slots
    {
      ready == q.ready && Delayed() == q.delayed && inflight == q.inflight
    }

    constructor ()
      ensures Valid() && fresh(slots) && ready == [] && Delayed() == [] && inflight == map[]
    {
      ready, inflight, count := [], map[], 0;
      slots := new Job[0];
    }

    /** append, which moves to a larger array when the slice fills its own. */
    method AppendDelayed(j: Job)
      requires Valid()
      modifies this`slots, this`count, slots
      ensures Valid() && (slots == old(slots) || fresh(slots))
      ensures Delayed() == old(Delayed()) + [j]
    {
      if count == slots.Length {
        var from, n := slots, count;
        var larger := new Job[2 * n + 1](i requires 0 <= i reads this, from => if i < n && n <= from.Length then from[i] else j);
        assert larger[..n] == from[..n];
        slots := larger;
      }
      slots[count] := j;
      count := count + 1;
    }

    method Push(j: Job, now: Time, ghost q: Queue)
      requires Valid()
      modifies this`ready, this`slots, this`count, slots
      ensures Valid() && (slots == old(slots) || fresh(slots))
      ensures ready == if AvailableBy(j, now) then old(ready) + [j] else old(ready)
      ensures Delayed() == if AvailableBy(j, now) then old(Delayed()) else old(Delayed()) + [j]
      ensures old(Shows(q)) && q.clock == now && j.id !in q.pushed ==> Shows(Step(q, QueueEvent.Push(j)).value)
    {
      if j.availableAt.Some? && j.availableAt.value > now {
        AppendDelayed(j);
      } else {
        ready := ready + [j];
      }
    }

    /** The kept jobs are written over the front of the list they are read from. */
    method PromoteDelayed(now: Time, ghost q: Queue)
      requires Valid()
      modifies this`ready, this`count, slots
      ensures Valid() && slots == old(slots)
      ensures ready == old(ready) + Due(old(Delayed()), now)
      ensures Delayed() == Kept(old(Delayed()), now)
      ensures old(Shows(q)) && now <= q.clock ==> Shows(Step(q, Promote(now)).value)
    {
      ghost var js := Delayed();
      var kept := 0;
      var i := 0;
      assert ready + [] == ready;
      while i < count
        invariant count == |js| && slots == old(slots) && count <= slots.Length
        invariant Halfway(js, now, i, kept, old(ready), ready, slots[..])
      {
        var j := slots[i];
        OneMorePromoted(js, now, i, kept, old(ready), ready, slots[..]);
        if !(j.availableAt.Some? && j.availableAt.value > now) {
          ready := ready + [j];
        } else {
          slots[kept] := j;
          kept := kept + 1;
        }
        i := i + 1;
      }
      assert js[..i] == js && slots[..][..kept] == slots[..kept];
      count := kept;
    }

    /** The locked part of Pop. */
    method PopReady(ghost q: Queue) returns (r: Option<Job>)
      requires Valid()
      modifies this`ready, this`inflight
      ensures r.None? <==> old(ready) == []
      ensures r.None? ==> ready == old(ready) && inflight == old(inflight)
      ensures r.Some? ==> old(ready) == [r.value] + ready && inflight == old(inflight)[r.value.id := r.value]
      ensures Valid() && (old(Shows(q)) ==> Shows(Step(q, Pop).value))
    {
      if |ready| > 0 {
        var j := ready[0];
        ready := ready[1..];
        inflight := inflight[j.id := j];
        return Some(j);
      }
      return None;
    }

    method Ack(id: Id, ghost q: Queue)
      requires Valid()
      modifies this`inflight
      ensures inflight == old(inflight) - {id}
      ensures Valid() && (old(Shows(q)) ==> Shows(Step(q, QueueEvent.Ack(id)).value))
    {
      inflight := inflight - {id};
    }

    /** The first locked part of Nack. */
    method NackTake(id: Id, retryAfter: Time, ghost q: Queue) returns (r: Option<Job>)
      requires Valid()
      modifies this`inflight
      ensures r == if id in old(inflight) then Some(old(inflight)[id]) else None
      ensures inflight == old(inflight) - {id}
      ensures Valid() && (old(Shows(q)) ==> Shows(Step(q, QueueEvent.NackTake(id, retryAfter)).value))
    {
      r := if id in inflight then Some(inflight[id]) else None;
      inflight := inflight - {id};
    }

    /** The rest of Nack, with its second locked part. */
    method NackPut(j: Job, retryAfter: Time, now: Time, ghost q: Queue, ghost i: nat)
      requires Valid()
      modifies this`ready, this`slots, this`count, slots
      ensures Valid() && (slots == old(slots) || fresh(slots))
      ensures ready == if retryAfter > 0 then old(ready) else old(ready) + [Retried(j, retryAfter, now)]
      ensures Delayed() == if retryAfter > 0 then old(Delayed()) + [Retried(j, retryAfter, now)] else old(Delayed())
      ensures old(Shows(q)) && i < |q.moving| && q.moving[i] == Move(j, retryAfter) && now <= q.clock ==> Shows(Step(q, QueueEvent.NackPut(i, now)).value)
    {
      var again := j.(attempts := j.attempts + 1);
      if retryAfter > 0 {
        again := again.(availableAt := Some(now + retryAfter));
        AppendDelayed(again);
      } else {
        ready := ready + [again];
      }
    }
  }

  /** A job as Nack puts it back. */
  function Retried(j: Job, retryAfter: Time, now: Time): Job {
    var again := j.(attempts := j.attempts + 1);
    if retryAfter > 0 then again.(availableAt := Some(now + retryAfter)) else again
  }

  // ---- Interleavings ----

  /** A job between the two locks of its Nack. */
  datatype Move = Move(job: Job, retryAfter: Time)

  /** The queue, the clock, and what the code does not keep: the jobs in the middle of a Nack, the
      acknowledged ones, and all that were ever pushed. */
  datatype Queue = Queue(clock: Time, ready: seq<Job>, delayed: seq<Job>, inflight: map<Id, Job>, moving: seq<Move>, acked: set<Id>, pushed: set<Id>)

  /** Some steps use the time as it was read before they got the lock. */
  datatype QueueEvent =
    | Tick(now: Time)
    | Push(job: Job)
    | Promote(read: Time)
    | Pop
    | Ack(id: Id)
    | NackTake(id: Id, retryAfter: Time)
    | NackPut(i: nat, read: Time)

  function Without<T>(s: seq<T>, i: nat): seq<T>
    requires i < |s|
  {
    s[..i] + s[i + 1..]
  }

  function Step(q: Queue, e: QueueEvent): Option<Queue> {
    match e
    case Tick(now) => if now < q.clock then None else Some(q.(clock := now))
    case Push(j) =>
      if j.id in q.pushed then None
      else if AvailableBy(j, q.clock) then Some(q.(ready := q.ready + [j], pushed := q.pushed + {j.id}))
      else Some(q.(delayed := q.delayed + [j], pushed := q.pushed + {j.id}))
    case Promote(read) =>
      if read > q.clock then None else Some(q.(ready := q.ready + Due(q.delayed, read), delayed := Kept(q.delayed, read)))
    case Pop =>
      if q.ready == [] then Some(q)
      else Some(q.(ready := q.ready[1..], inflight := q.inflight[q.ready[0].id := q.ready[0]]))
    case Ack(id) =>
      Some(if id in q.inflight then q.(inflight := q.inflight - {id}, acked := q.acked + {id}) else q)
    case NackTake(id, retryAfter) =>
      Some(if id in q.inflight then q.(inflight := q.inflight - {id}, moving := q.moving + [Move(q.inflight[id], retryAfter)]) else q)
    case NackPut(i, read) =>
      if i >= |q.moving| || read > q.clock then None
      else
        var m := q.moving[i];
        var j := Retried(m.job, m.retryAfter, read);
        var q' := q.(moving := Without(q.moving, i));
        Some(if m.retryAfter > 0 then q'.(delayed := q.delayed + [j]) else q'.(ready := q.ready + [j]))
  }

  function JobsOf(moving: seq<Move>): seq<Job> {
    seq(|moving|, i requires 0 <= i < |moving| => moving[i].job)
  }

  /** The number of places a job is in. */
  function Places(q: Queue, id: Id): nat {
    Count(q.ready, id) + Count(q.delayed, id) + (if id in q.inflight then 1 else 0) + Count(JobsOf(q.moving), id) + (if id in q.acked then 1 else 0)
  }

  /** Every pushed job is in exactly one of ready, delayed, in flight, on its way back, and acked. */
  ghost predicate OnePlaceEach(q: Queue) {
    forall id :: Places(q, id) == if id in q.pushed then 1 else 0
  }

  /** Nothing that is ready, out or on its way back got there before its time. */
  ghost predicate OnTime(q: Queue) {
    && (forall id | id in q.inflight :: q.inflight[id].id == id && AvailableBy(q.inflight[id], q.clock))
    && (forall j | j in q.ready :: AvailableBy(j, q.clock))
    && (forall m | m in q.moving :: AvailableBy(m.job, q.clock))
  }

  ghost predicate Inv(q: Queue) {
    OnePlaceEach(q) && OnTime(q)
  }

  lemma CountOfWithout(moving: seq<Move>, i: nat, id: Id)
    requires i < |moving|
    ensures Count(JobsOf(moving), id) == Count(JobsOf(Without(moving, i)), id) + if moving[i].job.id == id then 1 else 0
  {
    var js := JobsOf(moving);
    assert js == js[..i] + [js[i]] + js[i + 1..];
    assert JobsOf(Without(moving, i)) == js[..i] + js[i + 1..];
    CountOfConcat(js[..i] + [js[i]], js[i + 1..], id);
    CountOfSnoc(js[..i], js[i], id);
    CountOfConcat(js[..i], js[i + 1..], id);
  }

  /** What a step does to the places of one job. */
  lemma StepKeepsPlaces(q: Queue, e: QueueEvent, id: Id)
    requires Inv(q) && Step(q, e).Some?
    ensures Places(Step(q, e).value, id) == Places(q, id) + if e.Push? && e.job.id == id then 1 else 0
  {
    match e
    case Tick(_) =>
    case Push(j) =>
      CountOfSnoc(q.ready, j, id);
      CountOfSnoc(q.delayed, j, id);
    case Promote(read) =>
      PromotionKeepsCounts(q.delayed, read, id);
      CountOfConcat(q.ready, Due(q.delayed, read), id);
    case Pop =>
      if q.ready != [] {
        ReadyIsNotOut(q);
      }
    case Ack(k) =>
      if k in q.inflight {
        assert Places(q, k) <= 1;
      }
    case NackTake(k, retryAfter) =>
      if k in q.inflight {
        var m := Move(q.inflight[k], retryAfter);
        assert JobsOf(q.moving + [m]) == JobsOf(q.moving) + [m.job];
        CountOfSnoc(JobsOf(q.moving), m.job, id);
      }
    case NackPut(i, read) =>
      var m := q.moving[i];
      var j := Retried(m.job, m.retryAfter, read);
      CountOfWithout(q.moving, i, id);
      CountOfSnoc(q.delayed, j, id);
      CountOfSnoc(q.ready, j, id);
  }

  lemma ReadyIsNotOut(q: Queue)
    requires OnePlaceEach(q) && q.ready != []
    ensures q.ready[0].id !in q.inflight
  {
    assert Places(q, q.ready[0].id) <= 1;
  }

  lemma StepKeepsOnTime(q: Queue, e: QueueEvent)
    requires Inv(q) && Step(q, e).Some?
    ensures OnTime(Step(q, e).value)
  {
    if e.Promote? {
      PromotionTakesTheDue(q.delayed, e.read);
    }
  }

  /** In every interleaving each pushed job stays in exactly one place and no job gets ahead of its
      time, however old the clock reading that a promotion acts on. */
  lemma StepKeepsInv(q: Queue, e: QueueEvent)
    requires Inv(q) && Step(q, e).Some?
    ensures Inv(Step(q, e).value)
  {
    StepKeepsOnTime(q, e);
    forall id ensures Places(Step(q, e).value, id) == if id in Step(q, e).value.pushed then 1 else 0 {
      StepKeepsPlaces(q, e, id);
    }
  }

  /** The job a Pop hands out was available by the clock, and was not out already. */
  lemma NothingIsPoppedEarly(q: Queue)
    requires Inv(q) && q.ready != []
    ensures var j := q.ready[0];
            && AvailableBy(j, q.clock)
            && Step(q, Pop).value.inflight == q.inflight[j.id := j] && j.id !in q.inflight
  {
    ReadyIsNotOut(q);
  }

  const EMPTY := Queue(0, [], [], map[], [], {}, {})

  ghost predicate Run(states: seq<Queue>, events: seq<QueueEvent>, start: Time) {
    && |states| == |events| + 1
    && states[0] == EMPTY.(clock := start)
    && forall i | 0 <= i < |events| :: Step(states[i], events[i]) == Some(states[i + 1])
  }

  lemma RunStepKeepsInv(states: seq<Queue>, events: seq<QueueEvent>, start: Time, i: nat)
    requires Run(states, events, start) && i < |events| && Inv(states[i])
    ensures Inv(states[i + 1])
  {
    assert Step(states[i], events[i]) == Some(states[i + 1]);
    StepKeepsInv(states[i], events[i]);
  }

  lemma {:induction false} EveryStateHasInv(states: seq<Queue>, events: seq<QueueEvent>, start: Time, i: nat)
    requires Run(states, events, start) && i < |states|
    ensures Inv(states[i])
  {
    if i > 0 {
      EveryStateHasInv(states, events, start, i - 1);
      RunStepKeepsInv(states, events, start, i - 1);
    }
  }
}
