/**
 The timer queue: `EvHelper` (liburb/source/evhelper.cpp) with `Timer` (liburb/source/timer.hpp).

 `delay` makes a fresh inner timer and schedules it; a tick moves all due timers out of the queue under the lock and
 then runs them one by one, while callbacks and other threads go on calling `delay` and `cancel`.
 */
module Timers {
  import opened Wrappers

  /** Time is counted in deciseconds. */
  const MINUTE: int := 600

  /** `s_timers_`: an ordered map from fire time to the list of timers that fire then. */
  type Queue = seq<(int, seq<nat>)>

  /** One execution of a timer: which one, in which tick, and the clock of that tick. */
  datatype Execution = Execution(id: nat, tick: nat, clock: int)

  /**
   Inner timers are numbered in the order they are scheduled; `inner` is the latest one of each outer timer. `owner`,
   `done`, `executed` and `cancelled` are history: the outer timer each was made by, the timers dispatched, those of them
   that ran, and those a cancel reached.
   */
  datatype State = State(
    enabled: bool,
    fireTime: seq<int>,
    active: seq<bool>,
    owner: seq<string>,
    inner: map<string, nat>,
    queue: Queue,
    callbacks: seq<nat>,
    done: seq<nat>,
    executed: seq<Execution>,
    cancelled: set<nat>,
    tick: nat,
    clock: int)

  const INITIAL: State := State(true, [], [], [], map[], [], [], [], [], {}, 0, 0)

  datatype Event =
    | Delay(timer: string, at: int)
    | Cancel(timer: string)
    | Tick(now: int)
    | Dispatch
    | Disable

  /** A tick begins when the callbacks of the previous one are through. */
  predicate Enabled(s: State, e: Event) {
    match e
    case Tick(_) => s.callbacks == []
    case Dispatch => s.callbacks != []
    case _ => true
  }

  /** `scheduleTimer`: append to the list of its fire time, which is created in its place if it is missing. */
  function Insert(q: Queue, at: int, id: nat): Queue {
    if q == [] || at < q[0].0 then [(at, [id])] + q
    else if at == q[0].0 then [(at, q[0].1 + [id])] + q[1..]
    else [q[0]] + Insert(q[1..], at, id)
  }

  /** `upper_bound(now)`: the number of fire times that are due. */
  function Due(q: Queue, now: int): (k: nat)
    ensures k <= |q| && (forall i :: 0 <= i < k ==> q[i].0 <= now) && (k < |q| ==> q[k].0 > now)
  {
    if q == [] || q[0].0 > now then 0 else Due(q[1..], now) + 1
  }

  function Flatten(q: Queue): seq<nat> {
    if q == [] then [] else q[0].1 + Flatten(q[1..])
  }

  function Step(s: State, e: Event): State {
    match e
    case Delay(timer, at) =>
      var id := |s.fireTime|;
      s.(fireTime := s.fireTime + [at], active := s.active + [true], owner := s.owner + [timer],
         inner := s.inner[timer := id], queue := Insert(s.queue, at, id))
    case Cancel(timer) =>
      if timer in s.inner && s.inner[timer] < |s.active|
      then s.(active := s.active[s.inner[timer] := false], cancelled := s.cancelled + {s.inner[timer]})
      else s
    case Tick(now) =>
      if !s.enabled then s
      else
        var k := Due(s.queue, now);
        s.(callbacks := Flatten(s.queue[..k]), queue := s.queue[k..], tick := s.tick + 1, clock := now)
    case Dispatch =>
      if s.callbacks == [] then s
      else
        var id := s.callbacks[0];
        var s' := s.(callbacks := s.callbacks[1..], done := s.done + [id]);
        if id < |s.active| && s.active[id]
        then s'.(active := s.active[id := false], executed := s.executed + [Execution(id, s.tick, s.clock)])
        else s'
    case Disable => s.(enabled := false)
  }

  /** The state after the first `n` events. */
  function RunTo(es: seq<Event>, n: nat): State
    requires n <= |es|
  {
    if n == 0 then INITIAL else Step(RunTo(es, n - 1), es[n - 1])
  }

  function Run(es: seq<Event>): State { RunTo(es, |es|) }

  ghost predicate Legal(es: seq<Event>) {
    forall k {:trigger EnabledAt(es, k)} :: 0 <= k < |es| ==> EnabledAt(es, k)
  }

  ghost predicate EnabledAt(es: seq<Event>, k: nat)
    requires k < |es|
  {
    Enabled(RunTo(es, k), es[k])
  }

  // ------------------------------------------------------------ the queue

  /** How often a timer occurs in a list. */
  ghost function Count(ids: seq<nat>, id: nat): nat { multiset(ids)[id] }

  lemma {:induction false} CountConcat(a: seq<nat>, b: seq<nat>, id: nat)
    ensures Count(a + b, id) == Count(a, id) + Count(b, id)
  {
    assert multiset(a + b) == multiset(a) + multiset(b);
  }

  lemma {:induction false} CountPositive(a: seq<nat>, id: nat)
    ensures Count(a, id) > 0 <==> id in a
  {
    assert id in multiset(a) <==> id in a;
  }

  /** Earlier fire time first, and first scheduled first. */
  predicate Precedes(fireTime: seq<int>, a: nat, b: nat) {
    a < |fireTime| && b < |fireTime| && (fireTime[a] < fireTime[b] || (fireTime[a] == fireTime[b] && a < b))
  }

  ghost predicate Ordered(fireTime: seq<int>, ids: seq<nat>) {
    && (forall i :: 0 <= i < |ids| ==> ids[i] < |fireTime|)
    && (forall i, j :: 0 <= i < j < |ids| ==> Precedes(fireTime, ids[i], ids[j]))
  }

  /** A list of timers under their common fire time, in scheduling order. */
  ghost predicate BucketValid(fireTime: seq<int>, b: (int, seq<nat>)) {
    && b.1 != [] && Ordered(fireTime, b.1)
    && (forall k :: 0 <= k < |b.1| ==> b.1[k] < |fireTime| && fireTime[b.1[k]] == b.0)
  }

  /** Fire times ascend, and every timer is listed under its own. */
  ghost predicate QueueValid(fireTime: seq<int>, q: Queue) {
    && (forall i, j :: 0 <= i < j < |q| ==> q[i].0 < q[j].0)
    && (forall i :: 0 <= i < |q| ==> BucketValid(fireTime, q[i]))
  }

  lemma {:induction false} QueueCons(fireTime: seq<int>, b: (int, seq<nat>), q: Queue)
    requires BucketValid(fireTime, b) && QueueValid(fireTime, q) && (q == [] || b.0 < q[0].0)
    ensures QueueValid(fireTime, [b] + q) && Flatten([b] + q) == b.1 + Flatten(q)
  {
    var q' := [b] + q;
    assert q'[1..] == q;
    forall j | 1 <= j < |q'| ensures q'[0].0 < q'[j].0 {
      assert q'[j] == q[j - 1];
      assert j > 1 ==> q[0].0 < q[j - 1].0;
    }
  }

  lemma {:induction false} QueueTail(fireTime: seq<int>, q: Queue)
    requires QueueValid(fireTime, q) && q != []
    ensures QueueValid(fireTime, q[1..])
  {
    assert forall i :: 0 <= i < |q[1..]| ==> q[1..][i] == q[i + 1];
  }

  lemma {:induction false} QueueSlice(fireTime: seq<int>, q: Queue, k: nat)
    requires QueueValid(fireTime, q) && k <= |q|
    ensures QueueValid(fireTime, q[..k]) && QueueValid(fireTime, q[k..])
  {
    assert forall i :: 0 <= i < k ==> q[..k][i] == q[i];
    assert forall i :: 0 <= i < |q| - k ==> q[k..][i] == q[i + k];
  }

  /** A timer in the flattened queue stands under one of its fire times. */
  lemma {:induction false} FlattenIn(fireTime: seq<int>, q: Queue, id: nat)
    requires QueueValid(fireTime, q) && id in Flatten(q)
    ensures id < |fireTime| && exists i :: 0 <= i < |q| && q[i].0 == fireTime[id]
  {
    if id in q[0].1 {
      assert BucketValid(fireTime, q[0]);
      var k :| 0 <= k < |q[0].1| && q[0].1[k] == id;
      assert q[0].0 == fireTime[id];
    } else {
      QueueTail(fireTime, q);
      FlattenIn(fireTime, q[1..], id);
      var i :| 0 <= i < |q[1..]| && q[1..][i].0 == fireTime[id];
      assert q[i + 1].0 == fireTime[id];
    }
  }

  /** Flattening yields fire-time-then-scheduling order. */
  lemma {:induction false} FlattenOrdered(fireTime: seq<int>, q: Queue)
    requires QueueValid(fireTime, q)
    ensures Ordered(fireTime, Flatten(q))
  {
    if q != [] {
      QueueTail(fireTime, q);
      FlattenOrdered(fireTime, q[1..]);
      var head, rest := q[0].1, Flatten(q[1..]);
      var all := head + rest;
      forall i, j | 0 <= i < j < |all| ensures Precedes(fireTime, all[i], all[j]) {
        if i < |head| && j >= |head| {
          assert all[j] == rest[j - |head|] && all[j] in rest;
          FlattenIn(fireTime, q[1..], all[j]);
          var m :| 0 <= m < |q[1..]| && q[1..][m].0 == fireTime[all[j]];
          assert q[0].0 < q[m + 1].0;
          assert fireTime[head[i]] == q[0].0;
        } else if i >= |head| {
          assert all[i] == rest[i - |head|] && all[j] == rest[j - |head|];
        }
      }
      assert forall i :: 0 <= i < |all| ==> all[i] == if i < |head| then head[i] else rest[i - |head|];
    }
  }

  lemma {:induction false} FlattenConcat(p: Queue, q: Queue)
    ensures Flatten(p + q) == Flatten(p) + Flatten(q)
  {
    if p == [] {
      assert p + q == q;
    } else {
      assert (p + q)[1..] == p[1..] + q;
      FlattenConcat(p[1..], q);
    }
  }

  lemma {:induction false} ExtendBucket(fireTime: seq<int>, b: (int, seq<nat>), at: int)
    requires BucketValid(fireTime, b)
    ensures BucketValid(fireTime + [at], b)
  {
    var f := fireTime + [at];
    forall i, j | 0 <= i < j < |b.1| ensures Precedes(f, b.1[i], b.1[j]) { assert Precedes(fireTime, b.1[i], b.1[j]); }
  }

  lemma {:induction false} Extend(fireTime: seq<int>, q: Queue, at: int)
    requires QueueValid(fireTime, q)
    ensures QueueValid(fireTime + [at], q)
  {
    forall i | 0 <= i < |q| ensures BucketValid(fireTime + [at], q[i]) { ExtendBucket(fireTime, q[i], at); }
  }

  /** The newest timer goes to the end of the list of its fire time. */
  lemma {:induction false} AppendBucket(fireTime: seq<int>, b: (int, seq<nat>))
    requires BucketValid(fireTime, b)
    ensures BucketValid(fireTime + [b.0], (b.0, b.1 + [|fireTime|]))
  {
    var f, list := fireTime + [b.0], b.1 + [|fireTime|];
    ExtendBucket(fireTime, b, b.0);
    forall i, j | 0 <= i < j < |list| ensures Precedes(f, list[i], list[j]) {
      assert list[i] == b.1[i] && f[b.1[i]] == b.0;
      assert j < |b.1| ==> Precedes(f, b.1[i], b.1[j]);
    }
  }

  /** `scheduleTimer` adds the one timer. */
  lemma {:induction false} InsertCount(q: Queue, at: int, id: nat, x: nat)
    ensures Count(Flatten(Insert(q, at, id)), x) == Count(Flatten(q), x) + Count([id], x)
  {
    if q == [] || at < q[0].0 {
      assert ([(at, [id])] + q)[1..] == q;
      CountConcat([id], Flatten(q), x);
    } else {
      var list, rest := q[0].1, q[1..];
      CountConcat(list, Flatten(rest), x);
      if at == q[0].0 {
        assert ([(at, list + [id])] + rest)[1..] == rest;
        CountConcat(list, [id], x);
        CountConcat(list + [id], Flatten(rest), x);
      } else {
        var rest' := Insert(rest, at, id);
        assert ([q[0]] + rest')[1..] == rest';
        InsertCount(rest, at, id, x);
        CountConcat(list, Flatten(rest'), x);
      }
    }
  }

  /** `scheduleTimer` keeps the queue in order. */
  lemma {:induction false} InsertValid(fireTime: seq<int>, q: Queue, at: int)
    requires QueueValid(fireTime, q)
    ensures var q' := Insert(q, at, |fireTime|);
            && QueueValid(fireTime + [at], q')
            && q' != [] && q'[0].0 == if q == [] || at < q[0].0 then at else q[0].0
  {
    var id, f := |fireTime|, fireTime + [at];
    Extend(fireTime, q, at);
    if q == [] || at < q[0].0 {
      QueueCons(f, (at, [id]), q);
    } else {
      var rest := q[1..];
      QueueTail(fireTime, q);
      Extend(fireTime, rest, at);
      if at == q[0].0 {
        AppendBucket(fireTime, q[0]);
        QueueCons(f, (at, q[0].1 + [id]), rest);
      } else {
        InsertValid(fireTime, rest, at);
        QueueCons(f, q[0], Insert(rest, at, id));
      }
    }
  }

  // ------------------------------------------------------------ what every step keeps

  ghost predicate Shape(s: State) {
    && |s.active| == |s.fireTime|
    && (forall t :: t in s.inner ==> s.inner[t] < |s.fireTime|)
    && (forall id :: id in s.cancelled ==> id < |s.fireTime|)
    && QueueValid(s.fireTime, s.queue)
    && Ordered(s.fireTime, s.callbacks)
    && (forall i :: 0 <= i < |s.callbacks| ==> s.fireTime[s.callbacks[i]] <= s.clock)
  }

  ghost function Places(s: State, id: nat): nat {
    Count(Flatten(s.queue), id) + Count(s.callbacks, id) + Count(s.done, id)
  }

  /** Every scheduled timer is exactly once pending, about to be dispatched, or dispatched. */
  ghost predicate Partition(s: State) {
    forall id: nat :: Places(s, id) == if id < |s.fireTime| then 1 else 0
  }

  ghost predicate Executed(s: State, id: nat) {
    exists i :: 0 <= i < |s.executed| && s.executed[i].id == id
  }

  /** An execution comes after its dispatch and its fire time. */
  ghost predicate Timely(s: State, x: Execution) {
    && x.id < |s.fireTime| && x.id in s.done && s.fireTime[x.id] <= x.clock
    && x.tick <= s.tick && (x.tick == s.tick ==> x.clock == s.clock)
    && (x.tick == s.tick ==> forall c :: 0 <= c < |s.callbacks| ==> Precedes(s.fireTime, x.id, s.callbacks[c]))
  }

  /** Two executions are of different timers, and within a tick in fire-time-then-scheduling order. */
  ghost predicate InOrder(s: State, x: Execution, y: Execution) {
    x.id != y.id && x.tick <= y.tick && (x.tick == y.tick ==> Precedes(s.fireTime, x.id, y.id))
  }

  ghost predicate History(s: State) {
    && (forall i :: 0 <= i < |s.executed| ==> Timely(s, s.executed[i]))
    && (forall i, j :: 0 <= i < j < |s.executed| ==> InOrder(s, s.executed[i], s.executed[j]))
  }

  /** A timer is active exactly until it is cancelled or executed, and no dispatched timer is. */
  ghost predicate Flags(s: State) {
    && |s.active| == |s.fireTime|
    && (forall id :: 0 <= id < |s.active| ==> (s.active[id] <==> id !in s.cancelled && !Executed(s, id)))
    && (forall id :: 0 <= id < |s.active| && s.active[id] ==> id !in s.done)
  }

  ghost predicate Invariant(s: State) {
    Shape(s) && Partition(s) && History(s) && Flags(s)
  }

  // ------------------------------------------------------------ delay

  lemma {:induction false} ExtendHistory(s: State, s': State, at: int)
    requires History(s) && Shape(s) && s'.fireTime == s.fireTime + [at]
    requires s'.executed == s.executed && s'.done == s.done && s'.callbacks == s.callbacks
    requires s'.tick == s.tick && s'.clock == s.clock
    ensures History(s')
  {
    forall i | 0 <= i < |s.executed| ensures Timely(s', s.executed[i]) { assert Timely(s, s.executed[i]); }
    forall i, j | 0 <= i < j < |s.executed| ensures InOrder(s', s.executed[i], s.executed[j]) {
      assert InOrder(s, s.executed[i], s.executed[j]);
    }
  }

  lemma {:induction false} DelayShape(s: State, timer: string, at: int)
    requires Shape(s)
    ensures Shape(Step(s, Delay(timer, at)))
  {
    InsertValid(s.fireTime, s.queue, at);
    var f := s.fireTime + [at];
    forall i, j | 0 <= i < j < |s.callbacks| ensures Precedes(f, s.callbacks[i], s.callbacks[j]) {
      assert Precedes(s.fireTime, s.callbacks[i], s.callbacks[j]);
    }
  }

  lemma {:induction false} DelayPartition(s: State, timer: string, at: int)
    requires Shape(s) && Partition(s)
    ensures Partition(Step(s, Delay(timer, at)))
  {
    var s', n := Step(s, Delay(timer, at)), |s.fireTime|;
    forall id: nat ensures Places(s', id) == if id < n + 1 then 1 else 0 {
      InsertCount(s.queue, at, n, id);
      assert Places(s, id) == if id < n then 1 else 0;
    }
  }

  lemma {:induction false} NotDone(s: State, id: nat)
    requires Partition(s) && (id >= |s.fireTime| || id in s.callbacks)
    ensures id !in s.done
  {
    assert Places(s, id) <= 1;
    CountPositive(s.callbacks, id);
    CountPositive(s.done, id);
  }

  lemma {:induction false} DelayFlags(s: State, timer: string, at: int)
    requires Invariant(s)
    ensures Flags(Step(s, Delay(timer, at)))
  {
    var s', n := Step(s, Delay(timer, at)), |s.fireTime|;
    NotDone(s, n);
    forall id | 0 <= id < n ensures Executed(s', id) == Executed(s, id) {}
    forall i | 0 <= i < |s.executed| ensures s.executed[i].id < n { assert Timely(s, s.executed[i]); }
  }

  lemma {:induction false} DelayKeeps(s: State, timer: string, at: int)
    requires Invariant(s)
    ensures Invariant(Step(s, Delay(timer, at)))
  {
    DelayShape(s, timer, at);
    DelayPartition(s, timer, at);
    ExtendHistory(s, Step(s, Delay(timer, at)), at);
    DelayFlags(s, timer, at);
  }

  // ------------------------------------------------------------ cancel

  lemma {:induction false} CancelKeeps(s: State, timer: string)
    requires Invariant(s)
    ensures Invariant(Step(s, Cancel(timer)))
  {
    var s' := Step(s, Cancel(timer));
    assert forall id: nat :: Places(s', id) == Places(s, id);
    forall i | 0 <= i < |s.executed| ensures Timely(s', s.executed[i]) { assert Timely(s, s.executed[i]); }
    forall i, j | 0 <= i < j < |s.executed| ensures InOrder(s', s.executed[i], s.executed[j]) {
      assert InOrder(s, s.executed[i], s.executed[j]);
    }
    forall id: nat ensures Executed(s', id) == Executed(s, id) {}
  }

  // ------------------------------------------------------------ a tick

  lemma {:induction false} AllBy(fireTime: seq<int>, q: Queue, now: int, id: nat)
    requires QueueValid(fireTime, q) && (forall i :: 0 <= i < |q| ==> q[i].0 <= now) && id in Flatten(q)
    ensures id < |fireTime| && fireTime[id] <= now
  {
    FlattenIn(fireTime, q, id);
  }

  lemma {:induction false} AllAfter(fireTime: seq<int>, q: Queue, now: int, id: nat)
    requires QueueValid(fireTime, q) && (q == [] || q[0].0 > now) && id in Flatten(q)
    ensures id < |fireTime| && fireTime[id] > now
  {
    FlattenIn(fireTime, q, id);
    var i :| 0 <= i < |q| && q[i].0 == fireTime[id];
    assert i > 0 ==> q[0].0 < q[i].0;
  }

  /** The timers taken are exactly the pending ones that are due. */
  lemma {:induction false} TakenAreDue(fireTime: seq<int>, q: Queue, now: int, taken: Queue, left: Queue)
    requires QueueValid(fireTime, q) && taken == q[..Due(q, now)] && left == q[Due(q, now)..]
    ensures QueueValid(fireTime, taken) && QueueValid(fireTime, left)
    ensures forall id :: id in Flatten(taken) ==> id < |fireTime| && fireTime[id] <= now
    ensures forall id :: id in Flatten(left) ==> id < |fireTime| && fireTime[id] > now
    ensures Flatten(taken) + Flatten(left) == Flatten(q)
  {
    QueueSlice(fireTime, q, Due(q, now));
    FlattenConcat(taken, left);
    assert taken + left == q;
    forall id | id in Flatten(taken) ensures id < |fireTime| && fireTime[id] <= now { AllBy(fireTime, taken, now, id); }
    forall id | id in Flatten(left) ensures id < |fireTime| && fireTime[id] > now { AllAfter(fireTime, left, now, id); }
  }

  lemma {:induction false} TickShape(s: State, now: int)
    requires Shape(s) && s.enabled && s.callbacks == []
    ensures Shape(Step(s, Tick(now)))
  {
    var s', k := Step(s, Tick(now)), Due(s.queue, now);
    TakenAreDue(s.fireTime, s.queue, now, s.queue[..k], s.queue[k..]);
    FlattenOrdered(s.fireTime, s.queue[..k]);
    assert forall i :: 0 <= i < |s'.callbacks| ==> s'.callbacks[i] in s'.callbacks;
  }

  lemma {:induction false} TickPartition(s: State, now: int)
    requires Shape(s) && Partition(s) && s.enabled && s.callbacks == []
    ensures Partition(Step(s, Tick(now)))
  {
    var s', k := Step(s, Tick(now)), Due(s.queue, now);
    TakenAreDue(s.fireTime, s.queue, now, s.queue[..k], s.queue[k..]);
    forall id: nat ensures Places(s', id) == Places(s, id) {
      CountConcat(Flatten(s.queue[..k]), Flatten(s.queue[k..]), id);
    }
  }

  lemma {:induction false} TickHistory(s: State, now: int)
    requires History(s) && Flags(s) && s.enabled
    ensures History(Step(s, Tick(now))) && Flags(Step(s, Tick(now)))
  {
    var s' := Step(s, Tick(now));
    forall i | 0 <= i < |s.executed| ensures Timely(s', s.executed[i]) { assert Timely(s, s.executed[i]); }
    forall i, j | 0 <= i < j < |s.executed| ensures InOrder(s', s.executed[i], s.executed[j]) {
      assert InOrder(s, s.executed[i], s.executed[j]);
    }
    forall id: nat ensures Executed(s', id) == Executed(s, id) {}
  }

  // ------------------------------------------------------------ a dispatch

  lemma {:induction false} DispatchShape(s: State)
    requires Shape(s) && s.callbacks != []
    ensures Shape(Step(s, Dispatch))
  {
    var s' := Step(s, Dispatch);
    forall i | 0 <= i < |s'.callbacks| ensures s'.callbacks[i] == s.callbacks[i + 1] {}
  }

  lemma {:induction false} DispatchPartition(s: State)
    requires Partition(s) && s.callbacks != []
    ensures Partition(Step(s, Dispatch))
  {
    var s', id := Step(s, Dispatch), s.callbacks[0];
    assert s.callbacks == [id] + s'.callbacks;
    forall x: nat ensures Places(s', x) == Places(s, x) {
      CountConcat([id], s'.callbacks, x);
      CountConcat(s.done, [id], x);
    }
  }

  lemma {:induction false} DispatchTimely(s: State, x: Execution)
    requires Shape(s) && s.callbacks != [] && Timely(s, x)
    ensures Timely(Step(s, Dispatch), x)
  {
    var s' := Step(s, Dispatch);
    forall c | 0 <= c < |s'.callbacks| ensures s'.callbacks[c] == s.callbacks[c + 1] {}
  }

  lemma {:induction false} DispatchHistory(s: State)
    requires Invariant(s) && s.callbacks != []
    ensures History(Step(s, Dispatch))
  {
    var s', id, n := Step(s, Dispatch), s.callbacks[0], |s.executed|;
    NotDone(s, id);
    forall i | 0 <= i < |s'.executed| ensures Timely(s', s'.executed[i]) {
      if i < n {
        assert Timely(s, s.executed[i]);
        DispatchTimely(s, s.executed[i]);
      } else {
        forall c | 0 <= c < |s'.callbacks| ensures Precedes(s.fireTime, id, s'.callbacks[c]) {
          assert s'.callbacks[c] == s.callbacks[c + 1];
        }
      }
    }
    forall i, j | 0 <= i < j < |s'.executed| ensures InOrder(s', s'.executed[i], s'.executed[j]) {
      assert Timely(s, s.executed[i]);
      if j < n { assert InOrder(s, s.executed[i], s.executed[j]); }
    }
  }

  lemma {:induction false} DispatchFlags(s: State)
    requires Invariant(s) && s.callbacks != []
    ensures Flags(Step(s, Dispatch))
  {
    var s', id, n := Step(s, Dispatch), s.callbacks[0], |s.executed|;
    forall j: nat | j != id ensures Executed(s', j) == Executed(s, j) {
      if Executed(s, j) {
        var i :| 0 <= i < n && s.executed[i].id == j;
        assert s'.executed[i].id == j;
      }
    }
    if s.active[id] {
      assert s'.executed[n].id == id;
    } else {
      assert Executed(s', id) == Executed(s, id);
    }
  }

  lemma {:induction false} StepKeeps(s: State, e: Event)
    requires Invariant(s) && Enabled(s, e)
    ensures Invariant(Step(s, e))
  {
    match e
    case Delay(timer, at) => DelayKeeps(s, timer, at);
    case Cancel(timer) => CancelKeeps(s, timer);
    case Tick(now) =>
      if s.enabled {
        TickShape(s, now);
        TickPartition(s, now);
        TickHistory(s, now);
      }
    case Dispatch =>
      DispatchShape(s);
      DispatchPartition(s);
      DispatchHistory(s);
      DispatchFlags(s);
    case Disable =>
      var s' := Step(s, e);
      assert forall id: nat :: Places(s', id) == Places(s, id);
      assert forall i :: 0 <= i < |s.executed| ==> Timely(s, s.executed[i]) ==> Timely(s', s.executed[i]);
      assert forall id: nat :: Executed(s', id) == Executed(s, id);
  }

  // ------------------------------------------------------------ over every run

  /**
   In every run each scheduled timer is exactly once pending, about to be dispatched or dispatched; it runs at most
   once, never in a tick whose clock is before its fire time, and within a tick in fire-time-then-scheduling order; it
   is active exactly until it is cancelled or runs.
   */
  lemma {:induction false} RunKeeps(es: seq<Event>, n: nat)
    requires Legal(es) && n <= |es|
    ensures Invariant(RunTo(es, n))
  {
    if n > 0 {
      RunKeeps(es, n - 1);
      assert EnabledAt(es, n - 1);
      StepKeeps(RunTo(es, n - 1), es[n - 1]);
    }
  }

  /** The timer is inactive, and has not run since the executions were those given. */
  ghost predicate Quiet(before: seq<Execution>, s: State, id: nat) {
    && id < |s.active| && !s.active[id]
    && before <= s.executed && forall i :: |before| <= i < |s.executed| ==> s.executed[i].id != id
  }

  lemma {:induction false} QuietStep(before: seq<Execution>, s: State, e: Event, s': State, id: nat)
    requires Quiet(before, s, id) && s' == Step(s, e)
    ensures Quiet(before, s', id)
  {
    if e.Dispatch? && s.callbacks != [] {
      var first := s.callbacks[0];
      if first < |s.active| && s.active[first] {
        assert s'.executed == s.executed + [Execution(first, s.tick, s.clock)];
      }
    }
  }

  lemma {:induction false} QuietStays(before: seq<Execution>, es: seq<Event>, k: nat, n: nat, id: nat)
    requires k <= n <= |es| && Quiet(before, RunTo(es, k), id)
    ensures Quiet(before, RunTo(es, n), id)
  {
    if k < n {
      QuietStays(before, es, k, n - 1, id);
      QuietStep(before, RunTo(es, n - 1), es[n - 1], RunTo(es, n), id);
    }
  }

  /** A timer once inactive stays so and never runs again. */
  lemma {:induction false} InactiveStaysInactive(es: seq<Event>, k: nat, n: nat, id: nat)
    requires k <= n <= |es| && id < |RunTo(es, k).active| && !RunTo(es, k).active[id]
    ensures id < |RunTo(es, n).active| && !RunTo(es, n).active[id]
    ensures RunTo(es, k).executed <= RunTo(es, n).executed
    ensures forall i :: |RunTo(es, k).executed| <= i < |RunTo(es, n).executed| ==> RunTo(es, n).executed[i].id != id
  {
    QuietStays(RunTo(es, k).executed, es, k, n, id);
  }

  /** A dispatched timer ran unless a cancel reached it. */
  lemma {:induction false} DispatchedRanOrCancelled(es: seq<Event>, id: nat)
    requires Legal(es) && id in Run(es).done
    ensures id < |Run(es).fireTime| && (Executed(Run(es), id) || id in Run(es).cancelled)
  {
    var s := Run(es);
    RunKeeps(es, |es|);
    CountPositive(s.done, id);
    assert Places(s, id) > 0;
  }

  /** When a tick releases the lock no due timer is pending, and it has taken all and only the due ones. */
  lemma {:induction false} TickTakesDue(es: seq<Event>, now: int)
    requires Legal(es) && Run(es).callbacks == [] && Run(es).enabled
    ensures var s, s' := Run(es), Step(Run(es), Tick(now));
            && (forall i :: 0 <= i < |s'.queue| ==> s'.queue[i].0 > now)
            && (forall id: nat :: id in s'.callbacks <==> id in Flatten(s.queue) && id < |s.fireTime| && s.fireTime[id] <= now)
  {
    RunKeeps(es, |es|);
    var s := Run(es);
    var k := Due(s.queue, now);
    TakenAreDue(s.fireTime, s.queue, now, s.queue[..k], s.queue[k..]);
    forall i | 0 <= i < |s.queue[k..]| ensures s.queue[k..][i].0 > now {
      assert s.queue[k].0 <= s.queue[k + i].0;
    }
    forall id: nat ensures id in Flatten(s.queue[..k]) <==> id in Flatten(s.queue) && id < |s.fireTime| && s.fireTime[id] <= now {
      var a, b := Flatten(s.queue[..k]), Flatten(s.queue[k..]);
      assert id in a + b <==> id in a || id in b;
    }
  }

  /** A second `delay` makes a second inner timer, and a cancel then reaches only that one. */
  lemma {:induction false} CancelReachesLatestOnly(es: seq<Event>, timer: string, first: int, second: int)
    requires Legal(es)
    ensures var s := Step(Step(Step(Run(es), Delay(timer, first)), Delay(timer, second)), Cancel(timer));
            var n := |Run(es).fireTime|;
            |s.active| == n + 2 && s.active[n] && !s.active[n + 1] && n in Flatten(s.queue)
  {
    RunKeeps(es, |es|);
    var s0 := Run(es);
    var n := |s0.fireTime|;
    var s1 := Step(s0, Delay(timer, first));
    InsertCount(s0.queue, first, n, n);
    InsertCount(s1.queue, second, n + 1, n);
    CountPositive(Flatten(Insert(s1.queue, second, n + 1)), n);
  }

  // ------------------------------------------------------------ the code

  /** Skipping the earlier fire times leads to the place of the new one. */
  lemma {:induction false} InsertAt(q: Queue, at: int, id: nat, i: nat)
    requires i <= |q| && (forall j :: 0 <= j < i ==> q[j].0 < at) && (i < |q| ==> at <= q[i].0)
    ensures Insert(q, at, id) == if i < |q| && q[i].0 == at then q[..i] + [(at, q[i].1 + [id])] + q[i + 1..]
                                 else q[..i] + [(at, [id])] + q[i..]
  {
    if i == 0 {
      assert q[..0] == [] && q[0..] == q;
    } else {
      var rest := q[1..];
      InsertAt(rest, at, id, i - 1);
      assert [q[0]] + rest[..i - 1] == q[..i] && rest[i - 1..] == q[i..];
      if i < |q| { assert rest[i..] == q[i + 1..]; }
    }
  }

  lemma {:induction false} DueIs(q: Queue, now: int, k: nat)
    requires k <= |q| && (forall i :: 0 <= i < k ==> q[i].0 <= now) && (k < |q| ==> q[k].0 > now)
    ensures Due(q, now) == k
  {
    if k > 0 { DueIs(q[1..], now, k - 1); }
  }

  lemma {:induction false} FlattenTake(q: Queue, k: nat)
    requires k < |q|
    ensures Flatten(q[..k + 1]) == Flatten(q[..k]) + q[k].1
  {
    assert q[..k + 1] == q[..k] + [q[k]];
    FlattenConcat(q[..k], [q[k]]);
    assert Flatten([q[k]]) == q[k].1 + [];
  }

  /** Collects the lists up to `upper_bound(now)`. */
  method CollectDue(q: Queue, now: int) returns (taken: seq<nat>, left: Queue)
    ensures taken == Flatten(q[..Due(q, now)]) && left == q[Due(q, now)..] && (left != [] ==> left[0].0 > now)
  {
    taken := [];
    var k := 0;
    while k < |q| && q[k].0 <= now
      invariant 0 <= k <= |q|
      invariant forall i :: 0 <= i < k ==> q[i].0 <= now
      invariant taken == Flatten(q[..k])
    {
      FlattenTake(q, k);
      taken := taken + q[k].1;
      k := k + 1;
    }
    DueIs(q, now, k);
    left := q[k..];
  }

  /** `EvHelper` and the inner timers it has been given. */
  class EvHelper {
    var enabled: bool
    var fireTime: seq<int>
    var active: seq<bool>
    var owner: seq<string>
    var inner: map<string, nat>
    var timers: Queue
    var callbacks: seq<nat>
    var done: seq<nat>
    var executed: seq<Execution>
    var cancelled: set<nat>
    var tick: nat
    var clock: int

    ghost function Abstract(): State
      reads this
    {
      State(enabled, fireTime, active, owner, inner, timers, callbacks, done, executed, cancelled, tick, clock)
    }

    constructor ()
      ensures Abstract() == INITIAL
    {
      enabled, fireTime, active, owner, inner, timers, callbacks := true, [], [], [], map[], [], [];
      done, executed, cancelled, tick, clock := [], [], {}, 0, 0;
    }

    /** Finds the list of the fire time, makes it if there is none, and appends the timer. */
    method ScheduleTimer(at: int, id: nat)
      modifies this`timers
      ensures timers == Insert(old(timers), at, id)
    {
      var i := 0;
      while i < |timers| && timers[i].0 < at
        invariant 0 <= i <= |timers| && timers == old(timers)
        invariant forall j :: 0 <= j < i ==> timers[j].0 < at
      {
        i := i + 1;
      }
      InsertAt(timers, at, id, i);
      if i < |timers| && timers[i].0 == at {
        timers := timers[..i] + [(at, timers[i].1 + [id])] + timers[i + 1..];
      } else {
        timers := timers[..i] + [(at, [id])] + timers[i..];
      }
    }

    /** `Timer::delay`, which makes a new inner timer each time. */
    method Delay(timer: string, at: int)
      modifies this
      ensures Abstract() == Step(old(Abstract()), Event.Delay(timer, at))
    {
      var id := |fireTime|;
      fireTime, active, owner := fireTime + [at], active + [true], owner + [timer];
      inner := inner[timer := id];
      ScheduleTimer(at, id);
    }

    method Cancel(timer: string)
      requires Invariant(Abstract())
      modifies this`active, this`cancelled
      ensures Abstract() == Step(old(Abstract()), Event.Cancel(timer))
    {
      if timer in inner {
        active, cancelled := active[inner[timer] := false], cancelled + {inner[timer]};
      }
    }

    /**
     The part of `timeout_cb` under the lock. The result is the time to the next call: until the first timer, or a minute
     if nothing is left. A disabled helper does nothing and is not called again.
     */
    method TakeDue(now: int) returns (wait: Option<int>)
      requires callbacks == []
      modifies this
      ensures Abstract() == Step(old(Abstract()), Tick(now))
      ensures enabled && timers != [] ==> wait == Some(timers[0].0 - now) && wait.value > 0
      ensures enabled && timers == [] ==> wait == Some(MINUTE)
      ensures !enabled ==> wait == None
    {
      if !enabled {
        return None;
      }
      var taken, left := CollectDue(timers, now);
      callbacks, timers, tick, clock := taken, left, tick + 1, now;
      wait := Some(if left != [] then left[0].0 - now else MINUTE);
    }

    /** One round of the loop over the callbacks, with `executeMethod`. */
    method DispatchNext()
      requires Invariant(Abstract()) && callbacks != []
      modifies this
      ensures Abstract() == Step(old(Abstract()), Dispatch)
    {
      var id := callbacks[0];
      callbacks, done := callbacks[1..], done + [id];
      if active[id] {
        active, executed := active[id := false], executed + [Execution(id, tick, clock)];
      }
    }
  }
}
