/**
 When `Timer::cancel` (liburb/source/timer.hpp) stops a timer. Every `delay` makes a new inner timer and `cancel` reaches
 the latest one only, so that an earlier one which is still active may run afterwards.
 */
module Cancellation {
  import opened Timers

  /** Every inner timer has an owner, whose latest inner timer is that or a later one. */
  ghost predicate Owners(s: State) {
    && |s.owner| == |s.fireTime|
    && (forall t :: t in s.inner ==> s.inner[t] < |s.owner| && s.owner[s.inner[t]] == t)
    && (forall id :: 0 <= id < |s.owner| ==> s.owner[id] in s.inner && id <= s.inner[s.owner[id]])
  }

  lemma {:induction false} OwnersKept(es: seq<Event>, n: nat)
    requires n <= |es|
    ensures Owners(RunTo(es, n))
  {
    if n > 0 {
      OwnersKept(es, n - 1);
      OwnersStep(RunTo(es, n - 1), es[n - 1]);
    }
  }

  lemma {:induction false} OwnersStep(s: State, e: Event)
    requires Owners(s)
    ensures Owners(Step(s, e))
  {
    if e.Delay? { OwnersDelay(s, e.timer, Step(s, e)); }
  }

  lemma {:induction false} OwnersDelay(s: State, t: string, s': State)
    requires Owners(s) && |s'.owner| == |s'.fireTime|
    requires s'.owner == s.owner + [t] && s'.inner == s.inner[t := |s.owner|]
    ensures Owners(s')
  {
    forall id | 0 <= id < |s'.owner| ensures s'.owner[id] in s'.inner && id <= s'.inner[s'.owner[id]] {
      if id < |s.owner| { assert s'.owner[id] == s.owner[id]; }
    }
  }

  /** An earlier inner timer of `t`, which `cancel` does not reach. */
  ghost predicate Older(s: State, t: string, id: nat) {
    id < |s.owner| && s.owner[id] == t && t in s.inner && id != s.inner[t]
  }

  /** The timer ran after the executions were those of `s`. */
  ghost predicate RanSince(s: State, z: State, id: nat) {
    exists i :: |s.executed| <= i < |z.executed| && z.executed[i].id == id
  }

  /** No inner timer of `t` ran after the executions were those of `s`. */
  ghost predicate Silent(s: State, z: State, t: string) {
    forall i :: |s.executed| <= i < |z.executed| && z.executed[i].id < |z.owner| ==> z.owner[z.executed[i].id] != t
  }

  /** No inner timer of `t` was made since `s`. */
  ghost predicate SameTimers(s: State, z: State, t: string) {
    && s.executed <= z.executed && s.owner <= z.owner && |s.owner| == |s.active| && |z.owner| == |z.active|
    && (t in z.inner <==> t in s.inner) && (t in s.inner ==> z.inner[t] == s.inner[t])
    && (forall id :: |s.owner| <= id < |z.owner| ==> z.owner[id] != t)
  }

  /** What becomes of one inner timer of `t` after the cancel: an earlier one that was active runs when it is dispatched,
      and no other one runs. */
  ghost predicate Fate(s: State, z: State, t: string, id: nat)
    requires SameTimers(s, z, t) && id < |s.owner|
  {
    if Older(s, t, id) && s.active[id]
    then (z.active[id] <==> id !in z.done) && (RanSince(s, z, id) <==> id in z.done)
    else !z.active[id] && !RanSince(s, z, id)
  }

  ghost predicate Tracked(s: State, z: State, t: string) {
    SameTimers(s, z, t) && forall id :: 0 <= id < |s.owner| && s.owner[id] == t ==> Fate(s, z, t, id)
  }

  /** `Delay` of the timer itself is excluded: it would start it anew. */
  predicate Restarts(e: Event, t: string) { e.Delay? && e.timer == t }

  lemma {:induction false} CancelTracks(s: State, t: string)
    requires Invariant(s) && Owners(s)
    ensures Tracked(s, Step(s, Cancel(t)), t)
  {
    var z := Step(s, Cancel(t));
    forall id | 0 <= id < |s.owner| && s.owner[id] == t ensures Fate(s, z, t, id) {}
  }

  lemma {:induction false} SameTimersStep(s: State, z: State, e: Event, t: string)
    requires SameTimers(s, z, t) && Owners(z) && !Restarts(e, t)
    ensures SameTimers(s, Step(z, e), t)
  {
  }

  /** A step that is not the dispatch of the timer leaves its fate alone. */
  lemma {:induction false} FateKept(s: State, z: State, z': State, t: string, id: nat)
    requires SameTimers(s, z, t) && SameTimers(s, z', t) && id < |s.owner| && Fate(s, z, t, id)
    requires z'.active[id] == z.active[id] && (id in z'.done <==> id in z.done) && z.executed <= z'.executed
    requires forall i :: |z.executed| <= i < |z'.executed| ==> z'.executed[i].id != id
    ensures Fate(s, z', t, id)
  {
    if RanSince(s, z, id) {
      var i :| |s.executed| <= i < |z.executed| && z.executed[i].id == id;
      assert z'.executed[i].id == id;
    }
  }

  lemma {:induction false} FateDispatched(s: State, z: State, t: string)
    requires SameTimers(s, z, t) && Invariant(z) && z.callbacks != [] && z.callbacks[0] < |s.owner|
    requires Fate(s, z, t, z.callbacks[0]) && SameTimers(s, Step(z, Dispatch), t)
    ensures Fate(s, Step(z, Dispatch), t, z.callbacks[0])
  {
    var z', id, n := Step(z, Dispatch), z.callbacks[0], |z.executed|;
    NotDone(z, id);
    if z.active[id] {
      assert z'.executed[n].id == id;
    } else {
      assert z'.executed == z.executed;
    }
  }

  lemma {:induction false} FateStep(s: State, z: State, e: Event, t: string, id: nat)
    requires SameTimers(s, z, t) && SameTimers(s, Step(z, e), t) && Invariant(z) && Owners(z) && Enabled(z, e)
    requires !Restarts(e, t) && id < |s.owner| && s.owner[id] == t && Fate(s, z, t, id)
    ensures Fate(s, Step(z, e), t, id)
  {
    if e.Dispatch? && z.callbacks[0] == id {
      FateDispatched(s, z, t);
    } else if e.Cancel? {
      FateCancelled(s, z, e.timer, t, id);
    } else {
      FateKept(s, z, Step(z, e), t, id);
    }
  }

  lemma {:induction false} FateCancelled(s: State, z: State, other: string, t: string, id: nat)
    requires SameTimers(s, z, t) && SameTimers(s, Step(z, Cancel(other)), t) && Owners(z)
    requires id < |s.owner| && s.owner[id] == t && Fate(s, z, t, id)
    ensures Fate(s, Step(z, Cancel(other)), t, id)
  {
    assert z.owner[id] == t && t in z.inner;
    if other == t && id == s.inner[t] { assert !z.active[id]; }
    FateKept(s, z, Step(z, Cancel(other)), t, id);
  }

  lemma {:induction false} TrackedStep(s: State, z: State, e: Event, t: string)
    requires Tracked(s, z, t) && Invariant(z) && Owners(z) && Enabled(z, e) && !Restarts(e, t)
    ensures Tracked(s, Step(z, e), t)
  {
    SameTimersStep(s, z, e, t);
    forall id | 0 <= id < |s.owner| && s.owner[id] == t ensures Fate(s, Step(z, e), t, id) {
      FateStep(s, z, e, t, id);
    }
  }

  // ------------------------------------------------------------ over every run

  /** The state after the events, taken from a given state on. */
  function After(s: State, es: seq<Event>): State
    decreases |es|
  {
    if es == [] then s else After(Step(s, es[0]), es[1..])
  }

  ghost predicate LegalFrom(s: State, es: seq<Event>)
    decreases |es|
  {
    es == [] || (Enabled(s, es[0]) && LegalFrom(Step(s, es[0]), es[1..]))
  }

  lemma {:induction false} FirstStep(s: State, e: Event, s': State, rest: seq<Event>, es: seq<Event>)
    requires Enabled(s, e) && s' == Step(s, e) && es == [e] + rest && LegalFrom(s', rest)
    ensures LegalFrom(s, es) && After(s, es) == After(s', rest)
  {
    assert es[1..] == rest;
  }

  /** The rest of a run is a run from the state reached. */
  lemma {:induction false} RunSplits(es: seq<Event>, k: nat)
    requires Legal(es) && k <= |es|
    ensures LegalFrom(RunTo(es, k), es[k..]) && After(RunTo(es, k), es[k..]) == Run(es)
    decreases |es| - k
  {
    if k == |es| {
      assert es[k..] == [];
    } else {
      assert EnabledAt(es, k);
      RunSplits(es, k + 1);
      FirstStep(RunTo(es, k), es[k], RunTo(es, k + 1), es[k + 1..], es[k..]);
    }
  }

  ghost predicate NeverRestarts(es: seq<Event>, t: string) {
    forall j :: 0 <= j < |es| ==> !Restarts(es[j], t)
  }

  lemma {:induction false} TrackedRun(s: State, z: State, es: seq<Event>, t: string)
    requires Tracked(s, z, t) && Invariant(z) && Owners(z) && LegalFrom(z, es) && NeverRestarts(es, t)
    ensures Tracked(s, After(z, es), t) && Invariant(After(z, es)) && Owners(After(z, es))
    decreases |es|
  {
    if es != [] {
      TrackedStep(s, z, es[0], t);
      StepKeeps(z, es[0]);
      OwnersStep(z, es[0]);
      assert forall j :: 0 <= j < |es[1..]| ==> es[1..][j] == es[j + 1];
      TrackedRun(s, Step(z, es[0]), es[1..], t);
    }
  }

  /** An earlier inner timer of `t` that the cancel leaves active. */
  ghost predicate Spared(s: State, t: string, id: nat) {
    Older(s, t, id) && id < |s.active| && s.active[id]
  }

  lemma {:induction false} SilentMeaning(s: State, z: State, t: string)
    requires Tracked(s, z, t) && Owners(z) && Invariant(z)
    ensures Silent(s, z, t) <==> forall id: nat :: Spared(s, t, id) ==> id !in z.done
  {
    if Silent(s, z, t) {
      forall id: nat | Spared(s, t, id) ensures id !in z.done {
        assert Fate(s, z, t, id);
        assert z.owner[id] == t;
      }
    } else {
      var i :| |s.executed| <= i < |z.executed| && z.executed[i].id < |z.owner| && z.owner[z.executed[i].id] == t;
      var id := z.executed[i].id;
      assert RanSince(s, z, id) && id < |s.owner| && Fate(s, z, t, id);
      assert Spared(s, t, id);
    }
  }

  lemma {:induction false} CancelStopsFrom(s: State, es: seq<Event>, t: string)
    requires Invariant(s) && Owners(s) && LegalFrom(Step(s, Cancel(t)), es) && NeverRestarts(es, t)
    ensures var z := After(Step(s, Cancel(t)), es);
            Silent(s, z, t) <==> forall id: nat :: Spared(s, t, id) ==> id !in z.done
  {
    var c := Step(s, Cancel(t));
    CancelTracks(s, t);
    CancelKeeps(s, t);
    OwnersStep(s, Cancel(t));
    TrackedRun(s, c, es, t);
    SilentMeaning(s, After(c, es), t);
  }

  /**
   In every run, after a cancel and until the timer is started again, no inner timer of it runs if and only if none of
   those but the latest that were active at the cancel is dispatched.
   */
  lemma {:induction false} CancelStops(es: seq<Event>, k: nat, t: string)
    requires Legal(es) && k < |es| && es[k] == Cancel(t) && NeverRestarts(es[k + 1..], t)
    ensures Silent(RunTo(es, k), Run(es), t) <==> forall id: nat :: Spared(RunTo(es, k), t, id) ==> id !in Run(es).done
  {
    var s := RunTo(es, k);
    RunKeeps(es, k);
    OwnersKept(es, k);
    RunSplits(es, k + 1);
    CancelStopsFrom(s, es[k + 1..], t);
  }

  // ------------------------------------------------------------ over every continuation

  lemma {:induction false} AfterConcat(s: State, a: seq<Event>, b: seq<Event>)
    requires LegalFrom(s, a) && LegalFrom(After(s, a), b)
    ensures LegalFrom(s, a + b) && After(s, a + b) == After(After(s, a), b)
    decreases |a|
  {
    if a == [] {
      assert a + b == b;
    } else {
      assert (a + b)[0] == a[0] && (a + b)[1..] == a[1..] + b;
      AfterConcat(Step(s, a[0]), a[1..], b);
    }
  }

  /** Dispatching goes on until no callback is left. */
  lemma {:induction false} Drain(s: State) returns (es: seq<Event>)
    ensures LegalFrom(s, es) && (forall t :: NeverRestarts(es, t))
    ensures After(s, es).callbacks == [] && After(s, es).done == s.done + s.callbacks
    ensures var z := After(s, es); z.queue == s.queue && z.enabled == s.enabled && z.fireTime == s.fireTime
    decreases |s.callbacks|
  {
    if s.callbacks == [] {
      es := [];
      assert s.done + s.callbacks == s.done;
    } else {
      var s' := Step(s, Dispatch);
      var rest := Drain(s');
      es := [Dispatch] + rest;
      assert es[1..] == rest;
      assert s'.done + s'.callbacks == s.done + s.callbacks;
      forall t ensures NeverRestarts(es, t) {
        assert NeverRestarts(rest, t);
        assert forall j :: 1 <= j < |es| ==> es[j] == rest[j - 1];
      }
    }
  }

  /** The timer is pending in a queue that is never taken from again. */
  ghost predicate Stranded(s: State, id: nat) { !s.enabled && id in Flatten(s.queue) }

  /** What is not yet dispatched and not stranded has a continuation that dispatches it. */
  lemma {:induction false} Dispatchable(s: State, id: nat) returns (es: seq<Event>)
    requires Invariant(s) && id < |s.fireTime| && id !in s.done && !Stranded(s, id)
    ensures LegalFrom(s, es) && (forall t :: NeverRestarts(es, t)) && id in After(s, es).done
  {
    CountPositive(Flatten(s.queue), id);
    CountPositive(s.callbacks, id);
    CountPositive(s.done, id);
    assert Places(s, id) == 1;
    es := Drain(s);
    if id !in s.callbacks {
      var z := After(s, es);
      DueTaken(s, z, id);
      var more := TickAndDrain(z, s.fireTime[id]);
      AfterConcat(s, es, more);
      forall t ensures NeverRestarts(es + more, t) {
        assert NeverRestarts(es, t) && NeverRestarts(more, t);
      }
      es := es + more;
    }
  }

  lemma {:induction false} TickAndDrain(s: State, now: int) returns (es: seq<Event>)
    requires s.callbacks == []
    ensures LegalFrom(s, es) && (forall t :: NeverRestarts(es, t))
    ensures forall id :: id in Step(s, Tick(now)).callbacks ==> id in After(s, es).done
  {
    var s' := Step(s, Tick(now));
    var rest := Drain(s');
    es := [Tick(now)] + rest;
    FirstStep(s, Tick(now), s', rest, es);
    forall t ensures NeverRestarts(es, t) {
      assert NeverRestarts(rest, t);
      assert forall j :: 1 <= j < |es| ==> es[j] == rest[j - 1];
    }
  }

  lemma {:induction false} DueTaken(s: State, z: State, id: nat)
    requires Shape(s) && z.queue == s.queue && z.fireTime == s.fireTime && z.enabled
    requires id in Flatten(s.queue) && id < |s.fireTime|
    ensures id in Step(z, Tick(s.fireTime[id])).callbacks
  {
    var at := s.fireTime[id];
    var k := Due(s.queue, at);
    TakenAreDue(s.fireTime, s.queue, at, s.queue[..k], s.queue[k..]);
    assert id in Flatten(s.queue[..k]) + Flatten(s.queue[k..]);
  }

  /** A stranded timer stays so, and is not dispatched. */
  lemma {:induction false} StaysStranded(s: State, es: seq<Event>, id: nat)
    requires Invariant(s) && LegalFrom(s, es) && Stranded(s, id)
    ensures Invariant(After(s, es)) && Stranded(After(s, es), id) && id !in After(s, es).done
    decreases |es|
  {
    if es == [] {
      CountPositive(Flatten(s.queue), id);
      CountPositive(s.done, id);
      assert Places(s, id) <= 1;
    } else {
      StepKeeps(s, es[0]);
      StrandedStep(s, es[0], id);
      StaysStranded(Step(s, es[0]), es[1..], id);
    }
  }

  lemma {:induction false} StrandedStep(s: State, e: Event, id: nat)
    requires Stranded(s, id)
    ensures Stranded(Step(s, e), id)
  {
    if e.Delay? {
      var q := Insert(s.queue, e.at, |s.fireTime|);
      InsertCount(s.queue, e.at, |s.fireTime|, id);
      CountPositive(Flatten(s.queue), id);
      CountPositive(Flatten(q), id);
    }
  }

  /** A run that goes on from a cancel of `t` without starting it again. */
  ghost predicate Continues(s: State, es: seq<Event>, t: string) {
    LegalFrom(Step(s, Cancel(t)), es) && NeverRestarts(es, t)
  }

  /** However the run goes on, the cancelled timer does not run. */
  ghost predicate Stopped(s: State, t: string) {
    forall es: seq<Event> :: Continues(s, es, t) ==> Silent(s, After(Step(s, Cancel(t)), es), t)
  }

  lemma {:induction false} SparedRuns(s: State, t: string, id: nat) returns (es: seq<Event>)
    requires Invariant(s) && Owners(s) && Spared(s, t, id) && !Stranded(s, id)
    ensures Continues(s, es, t) && !Silent(s, After(Step(s, Cancel(t)), es), t)
  {
    var c := Step(s, Cancel(t));
    CancelKeeps(s, t);
    es := Dispatchable(c, id);
    assert NeverRestarts(es, t);
    CancelStopsFrom(s, es, t);
  }

  lemma {:induction false} StrandedIsSilent(s: State, es: seq<Event>, t: string)
    requires Invariant(s) && Owners(s) && Continues(s, es, t)
    requires forall id: nat :: Spared(s, t, id) ==> Stranded(s, id)
    ensures Silent(s, After(Step(s, Cancel(t)), es), t)
  {
    var c := Step(s, Cancel(t));
    CancelKeeps(s, t);
    forall id: nat | Spared(s, t, id) ensures id !in After(c, es).done {
      StaysStranded(c, es, id);
    }
    CancelStopsFrom(s, es, t);
  }

  /**
   A cancel stops its timer for good, in every run that reaches it and however that run goes on, if and only if every
   inner timer of it but the latest is inactive, or pending in a helper that has been disabled.
   */
  lemma {:induction false} CancelStopsForGood(es: seq<Event>, t: string)
    requires Legal(es)
    ensures Stopped(Run(es), t) <==> forall id: nat :: Spared(Run(es), t, id) ==> Stranded(Run(es), id)
  {
    var s := Run(es);
    RunKeeps(es, |es|);
    OwnersKept(es, |es|);
    if forall id: nat :: Spared(s, t, id) ==> Stranded(s, id) {
      forall more: seq<Event> | Continues(s, more, t) ensures Silent(s, After(Step(s, Cancel(t)), more), t) {
        StrandedIsSilent(s, more, t);
      }
    } else {
      var id: nat :| Spared(s, t, id) && !Stranded(s, id);
      var more := SparedRuns(s, t, id);
    }
  }
}
