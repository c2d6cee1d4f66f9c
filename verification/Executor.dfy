/**
 The executor side of the protocol: `UrbExecutorProcess` (liburb/source/executor_process.cpp) together with its
 `MesosExecutorDriver` (liburb/source/exec.cpp). Every handler and every driver call is one atomic step.
 */
module Executor {
  import opened Wrappers
  import opened LinkedMap

  datatype TaskState =
    TASK_STAGING | TASK_STARTING | TASK_RUNNING | TASK_KILLING | TASK_FINISHED | TASK_FAILED | TASK_KILLED |
    TASK_ERROR | TASK_LOST | TASK_DROPPED | TASK_UNREACHABLE | TASK_GONE | TASK_GONE_BY_OPERATOR | TASK_UNKNOWN

  datatype Update = Update(uuid: string, taskId: string, state: TaskState)

  /** What `LinkedHashMap` inserts when an unknown uuid is looked up. */
  const DEFAULT_UPDATE: Update := Update("", "", TASK_STAGING)

  datatype TaskInfo = TaskInfo(id: string, data: string)

  datatype DriverStatus = DRIVER_NOT_STARTED | DRIVER_RUNNING | DRIVER_ABORTED | DRIVER_STOPPED

  /** Calls into the user's `Executor`. */
  datatype Callback =
    OnRegistered | OnReregistered | OnLaunch(task: TaskInfo) | OnKill(id: string) | OnMessage(data: string) |
    OnShutdown | OnError

  /** Messages to the slave. */
  datatype Message =
    StatusUpdate(update: Update) | Reregister(updates: seq<Update>, tasks: seq<TaskInfo>) | ToFramework(data: string)

  datatype State = State(
    status: DriverStatus,
    process: bool,
    aborted: bool,
    connected: bool,
    updates: seq<(string, Update)>,
    tasks: seq<(string, TaskInfo)>,
    callbacks: seq<Callback>,
    outbox: seq<Message>)

  const INITIAL: State := State(DRIVER_NOT_STARTED, false, false, false, [], [], [], [])

  datatype Event =
      // calls of the driver
    | Start | Stop | Abort | SendStatusUpdate(taskId: string, state: TaskState, uuid: string) | SendFrameworkMessage(data: string)
      // messages to the process
    | Registered | Reregistered | Reconnect | RunTask(task: TaskInfo) | KillTask(id: string)
    | Acknowledge(taskId: string, uuid: string) | FrameworkMessage(data: string) | Shutdown

  predicate IsMessage(e: Event) {
    e.Registered? || e.Reregistered? || e.Reconnect? || e.RunTask? || e.KillTask? || e.Acknowledge? ||
    e.FrameworkMessage? || e.Shutdown?
  }

  /** What the source CHECKs: a driver is started once, a process receives messages once it exists,
      and a task that is listed is not run again. */
  predicate Enabled(s: State, e: Event) {
    match e
    case Start => !s.process
    case RunTask(task) => s.process && (s.aborted || !s.connected || !HasKey(s.tasks, task.id))
    case _ => IsMessage(e) ==> s.process
  }

  function Lookup(es: seq<(string, Update)>, uuid: string): Update {
    var i := Position(es, uuid);
    if i < |es| then es[i].1 else DEFAULT_UPDATE
  }

  /** `statusUpdateAcknowledgement`: looking up the state inserts a default entry for an unknown uuid, which is then erased. */
  function Acknowledged(s: State, taskId: string, uuid: string): State {
    var looked := if HasKey(s.updates, uuid) then s.updates else Put(s.updates, uuid, DEFAULT_UPDATE);
    s.(updates := Remove(looked, uuid),
       tasks := if Lookup(looked, uuid).state == TASK_FINISHED then Remove(s.tasks, taskId) else s.tasks)
  }

  function Step(s: State, e: Event): State {
    match e
    case Start => s.(process := true, status := if s.status == DRIVER_NOT_STARTED then DRIVER_RUNNING else s.status)
    case Stop =>
      if s.status != DRIVER_RUNNING && s.status != DRIVER_ABORTED then s else s.(status := DRIVER_STOPPED)
    case Abort => if s.status != DRIVER_RUNNING then s else s.(aborted := true, status := DRIVER_ABORTED)
    case SendStatusUpdate(taskId, state, uuid) =>
      if s.status != DRIVER_RUNNING then s
      else if state == TASK_STAGING then
        s.(aborted := true, status := DRIVER_ABORTED, callbacks := s.callbacks + [OnError])
      else
        var u := Update(uuid, taskId, state);
        s.(updates := Put(s.updates, uuid, u), outbox := s.outbox + [StatusUpdate(u)])
    case SendFrameworkMessage(data) =>
      if s.status != DRIVER_RUNNING then s else s.(outbox := s.outbox + [ToFramework(data)])
    case Registered => if s.aborted then s else s.(connected := true, callbacks := s.callbacks + [OnRegistered])
    case Reregistered => if s.aborted then s else s.(connected := true, callbacks := s.callbacks + [OnReregistered])
    case Reconnect =>
      if s.aborted then s else s.(outbox := s.outbox + [Reregister(ValuesOf(s.updates), ValuesOf(s.tasks))])
    case RunTask(task) =>
      if s.aborted || !s.connected then s
      else s.(tasks := Put(s.tasks, task.id, task), callbacks := s.callbacks + [OnLaunch(task)])
    case KillTask(id) => if s.aborted then s else s.(callbacks := s.callbacks + [OnKill(id)])
    case Acknowledge(taskId, uuid) => if s.aborted || !s.connected then s else Acknowledged(s, taskId, uuid)
    case FrameworkMessage(data) =>
      if s.aborted || !s.connected then s else s.(callbacks := s.callbacks + [OnMessage(data)])
    case Shutdown => if s.aborted then s else s.(aborted := true, callbacks := s.callbacks + [OnShutdown])
  }

  // ------------------------------------------------------------ runs

  function Run(es: seq<Event>): State {
    if es == [] then INITIAL else Step(Run(es[..|es| - 1]), es[|es| - 1])
  }

  /** The uuids a run has mentioned. */
  ghost function Mentioned(es: seq<Event>): set<string> {
    set i | 0 <= i < |es| && (es[i].SendStatusUpdate? || es[i].Acknowledge?) :: es[i].uuid
  }

  /** Every step is enabled, and every update gets a uuid that was not seen before. */
  ghost predicate Legal(es: seq<Event>) {
    forall k :: 0 <= k < |es| ==>
      Enabled(Run(es[..k]), es[k]) && (es[k].SendStatusUpdate? ==> es[k].uuid !in Mentioned(es[..k]))
  }

  /** Step `k` sends an update. */
  predicate Sends(es: seq<Event>, k: nat)
    requires k < |es|
  {
    es[k].SendStatusUpdate? && es[k].state != TASK_STAGING && Run(es[..k]).status == DRIVER_RUNNING
  }

  /** Step `k` is an acknowledgement that is accepted. */
  predicate Accepts(es: seq<Event>, k: nat)
    requires k < |es|
  {
    es[k].Acknowledge? && !Run(es[..k]).aborted && Run(es[..k]).connected
  }

  /** The updates sent, in order. */
  function Sent(es: seq<Event>): seq<Update> {
    if es == [] then []
    else
      var n := |es| - 1;
      Sent(es[..n]) + if Sends(es, n) then [Update(es[n].uuid, es[n].taskId, es[n].state)] else []
  }

  /** The uuids of accepted acknowledgements. */
  function Acked(es: seq<Event>): set<string> {
    if es == [] then {}
    else
      var n := |es| - 1;
      Acked(es[..n]) + if Accepts(es, n) then {es[n].uuid} else {}
  }

  function Without(us: seq<Update>, acked: set<string>): seq<Update> {
    if us == [] then [] else (if us[0].uuid in acked then [] else [us[0]]) + Without(us[1..], acked)
  }

  /** The updates sent and not yet acknowledged, in send order. */
  function Outstanding(es: seq<Event>): seq<Update> { Without(Sent(es), Acked(es)) }

  function Keyed(us: seq<Update>): seq<(string, Update)> {
    seq(|us|, i requires 0 <= i < |us| => (us[i].uuid, us[i]))
  }

  ghost predicate DistinctUuids(us: seq<Update>) {
    forall i, j :: 0 <= i < j < |us| ==> us[i].uuid != us[j].uuid
  }

  lemma {:induction false} WithoutAppend(us: seq<Update>, u: Update, acked: set<string>)
    ensures Without(us + [u], acked) == Without(us, acked) + if u.uuid in acked then [] else [u]
  {
    if us == [] {
      assert us + [u] == [u] && [u][1..] == [];
    } else {
      assert (us + [u])[1..] == us[1..] + [u];
      WithoutAppend(us[1..], u, acked);
    }
  }

  lemma {:induction false} WithoutIn(us: seq<Update>, acked: set<string>)
    ensures forall u :: u in Without(us, acked) <==> u in us && u.uuid !in acked
    ensures DistinctUuids(us) ==> DistinctUuids(Without(us, acked))
  {
    if us != [] {
      WithoutIn(us[1..], acked);
      assert us == [us[0]] + us[1..];
      var rest := Without(us[1..], acked);
      if DistinctUuids(us) {
        forall k | 0 <= k < |rest| ensures us[0].uuid != rest[k].uuid {
          assert rest[k] in us[1..];
          var j :| 0 <= j < |us[1..]| && us[1..][j] == rest[k];
          assert us[j + 1] == rest[k];
        }
      }
    }
  }

  /** A uuid that does not occur makes no difference. */
  lemma {:induction false} WithoutUnknown(us: seq<Update>, acked: set<string>, uuid: string)
    requires forall i :: 0 <= i < |us| ==> us[i].uuid != uuid
    ensures Without(us, acked + {uuid}) == Without(us, acked)
  {
    if us != [] {
      var rest := us[1..];
      assert forall i :: 0 <= i < |rest| ==> rest[i] == us[i + 1];
      WithoutUnknown(rest, acked, uuid);
      assert us[0].uuid != uuid;
    }
  }

  /** Acknowledging one more uuid removes its entry. */
  lemma {:induction false} WithoutOneMore(us: seq<Update>, acked: set<string>, uuid: string)
    requires DistinctUuids(us)
    ensures Keyed(Without(us, acked + {uuid})) == Remove(Keyed(Without(us, acked)), uuid)
    decreases |us|
  {
    if us != [] {
      var first, rest := us[0], us[1..];
      assert forall i :: 0 <= i < |rest| ==> rest[i] == us[i + 1];
      WithoutOneMore(rest, acked, uuid);
      if first.uuid in acked {
        assert Without(us, acked) == Without(rest, acked);
        assert Without(us, acked + {uuid}) == Without(rest, acked + {uuid});
      } else {
        assert Without(us, acked) == [first] + Without(rest, acked);
        KeyedCons(first, Without(rest, acked));
        RemoveCons((first.uuid, first), Keyed(Without(rest, acked)), uuid);
        if first.uuid == uuid {
          WithoutUnknown(rest, acked, uuid);
        } else {
          KeyedCons(first, Without(rest, acked + {uuid}));
        }
      }
    }
  }

  lemma {:induction false} KeyedCons(u: Update, us: seq<Update>)
    ensures Keyed([u] + us) == [(u.uuid, u)] + Keyed(us)
  {
  }

  lemma {:induction false} RemoveCons<K, V>(e: (K, V), es: seq<(K, V)>, key: K)
    ensures Remove([e] + es, key) == if e.0 == key then es else [e] + Remove(es, key)
  {
    var all := [e] + es;
    assert all[1..] == es;
    var i := Position(es, key);
    if e.0 != key && i < |es| {
      assert all[..i + 1] == [e] + es[..i];
      assert all[i + 2..] == es[i + 1..];
    }
  }

  lemma {:induction false} LegalPrefix(es: seq<Event>)
    requires Legal(es) && es != []
    ensures Legal(es[..|es| - 1])
    ensures var front, last := es[..|es| - 1], es[|es| - 1];
            Enabled(Run(front), last) && (last.SendStatusUpdate? ==> last.uuid !in Mentioned(front))
  {
    var front := es[..|es| - 1];
    forall k | 0 <= k < |front|
      ensures Enabled(Run(front[..k]), front[k]) && (front[k].SendStatusUpdate? ==> front[k].uuid !in Mentioned(front[..k]))
    {
      assert front[..k] == es[..k];
    }
  }

  lemma {:induction false} MentionedGrows(es: seq<Event>)
    requires es != []
    ensures Mentioned(es[..|es| - 1]) <= Mentioned(es)
    ensures es[|es| - 1].SendStatusUpdate? || es[|es| - 1].Acknowledge? ==> es[|es| - 1].uuid in Mentioned(es)
  {
    var front := es[..|es| - 1];
    forall x | x in Mentioned(front) ensures x in Mentioned(es) {
      var i :| 0 <= i < |front| && (front[i].SendStatusUpdate? || front[i].Acknowledge?) && front[i].uuid == x;
      assert es[i] == front[i];
    }
  }

  lemma {:induction false} HistoryMentioned(es: seq<Event>)
    requires Legal(es)
    ensures forall u :: u in Sent(es) ==> u.uuid in Mentioned(es)
    ensures Acked(es) <= Mentioned(es) && DistinctUuids(Sent(es))
    decreases |es|
  {
    if es != [] {
      LegalPrefix(es);
      HistoryMentioned(es[..|es| - 1]);
      MentionedGrows(es);
      var before := Sent(es[..|es| - 1]);
      forall k | 0 <= k < |before| ensures before[k].uuid in Mentioned(es[..|es| - 1]) { assert before[k] in before; }
    }
  }

  /** What a step does to the updates on record. */
  lemma {:induction false} StepUpdates(s: State, e: Event)
    ensures Step(s, e).updates ==
            if e.SendStatusUpdate? && e.state != TASK_STAGING && s.status == DRIVER_RUNNING
            then Put(s.updates, e.uuid, Update(e.uuid, e.taskId, e.state))
            else if e.Acknowledge? && !s.aborted && s.connected then Remove(s.updates, e.uuid)
            else s.updates
  {
    if e.Acknowledge? { AcknowledgedUpdates(s, e.taskId, e.uuid); }
  }

  /** A new uuid goes to the end. */
  lemma {:induction false} PutKeyed(us: seq<Update>, u: Update)
    requires forall v :: v in us ==> v.uuid != u.uuid
    ensures Put(Keyed(us), u.uuid, u) == Keyed(us + [u])
  {
    forall k | 0 <= k < |us| ensures Keyed(us)[k].0 != u.uuid { assert us[k] in us; }
    assert !HasKey(Keyed(us), u.uuid);
    assert Keyed(us + [u]) == Keyed(us) + [(u.uuid, u)];
  }

  /** At-least-once bookkeeping: in every legal run the updates on record are exactly those sent without an accepted
      acknowledgement, in send order. */
  lemma {:induction false} UpdatesAreOutstanding(es: seq<Event>)
    requires Legal(es)
    ensures Run(es).updates == Keyed(Outstanding(es))
    decreases |es|
  {
    if es != [] {
      var n := |es| - 1;
      var front, last := es[..n], es[n];
      LegalPrefix(es);
      UpdatesAreOutstanding(front);
      HistoryMentioned(front);
      StepUpdates(Run(front), last);
      if Sends(es, n) {
        var u := Update(last.uuid, last.taskId, last.state);
        WithoutIn(Sent(front), Acked(front));
        PutKeyed(Outstanding(front), u);
        WithoutAppend(Sent(front), u, Acked(front));
        assert Acked(es) == Acked(front);
      } else if Accepts(es, n) {
        WithoutOneMore(Sent(front), Acked(front), last.uuid);
        assert Sent(es) == Sent(front);
      } else {
        assert Sent(es) == Sent(front) && Acked(es) == Acked(front);
      }
    }
  }

  /** An acknowledgement removes the update it names and nothing else. */
  lemma {:induction false} AcknowledgedUpdates(s: State, taskId: string, uuid: string)
    ensures Acknowledged(s, taskId, uuid).updates == Remove(s.updates, uuid)
    ensures !HasKey(s.updates, uuid) ==> Acknowledged(s, taskId, uuid) == s
  {
    if !HasKey(s.updates, uuid) {
      PutThenRemove(s.updates, uuid, DEFAULT_UPDATE);
      LookupDefault(s.updates, uuid);
    }
  }

  lemma {:induction false} LookupDefault(es: seq<(string, Update)>, uuid: string)
    requires !HasKey(es, uuid)
    ensures Lookup(Put(es, uuid, DEFAULT_UPDATE), uuid) == DEFAULT_UPDATE
  {
    var es' := es + [(uuid, DEFAULT_UPDATE)];
    assert es'[|es|].0 == uuid && forall j :: 0 <= j < |es| ==> es'[j] == es[j];
  }

  /** Every re-registration message carries exactly the outstanding updates and the tasks on record. */
  lemma {:induction false} ReregistrationIsComplete(es: seq<Event>)
    requires Legal(es) && es != [] && es[|es| - 1].Reconnect? && !Run(es[..|es| - 1]).aborted
    ensures var front := es[..|es| - 1];
            Run(es).outbox == Run(front).outbox + [Reregister(Outstanding(front), ValuesOf(TaskEntries(Live(front))))]
  {
    var front := es[..|es| - 1];
    LegalPrefix(es);
    UpdatesAreOutstanding(front);
    TasksAreLive(front);
    assert ValuesOf(Keyed(Outstanding(front))) == Outstanding(front);
  }

  // ------------------------------------------------------------ tasks

  /** Task launches that were accepted, with the step they were accepted in. */
  function Launches(es: seq<Event>): seq<(nat, TaskInfo)> {
    if es == [] then []
    else
      var n := |es| - 1;
      Launches(es[..n]) +
      if es[n].RunTask? && !Run(es[..n]).aborted && Run(es[..n]).connected then [(n, es[n].task)] else []
  }

  /** The id under which the last step accepts the acknowledgement of an outstanding update that said "finished". */
  ghost function Ended(es: seq<Event>): Option<string>
    requires es != []
  {
    var n := |es| - 1;
    if Accepts(es, n) && exists u :: u in Outstanding(es[..n]) && u.uuid == es[n].uuid && u.state == TASK_FINISHED
    then Some(es[n].taskId) else None
  }

  /** For every step, which task it ends. */
  ghost function Ends(es: seq<Event>): (r: seq<Option<string>>)
    ensures |r| == |es|
  {
    if es == [] then [] else Ends(es[..|es| - 1]) + [Ended(es)]
  }

  ghost predicate EndedSince(ends: seq<Option<string>>, i: nat, id: string) {
    exists k :: i < k < |ends| && ends[k] == Some(id)
  }

  ghost function Keep(ls: seq<(nat, TaskInfo)>, ends: seq<Option<string>>): seq<(nat, TaskInfo)> {
    if ls == [] then []
    else (if EndedSince(ends, ls[0].0, ls[0].1.id) then [] else [ls[0]]) + Keep(ls[1..], ends)
  }

  /** The launches since which their task was not acknowledged as finished. */
  ghost function Live(es: seq<Event>): seq<(nat, TaskInfo)> { Keep(Launches(es), Ends(es)) }

  function TaskEntries(ls: seq<(nat, TaskInfo)>): seq<(string, TaskInfo)> {
    seq(|ls|, i requires 0 <= i < |ls| => (ls[i].1.id, ls[i].1))
  }

  function DropTask(ls: seq<(nat, TaskInfo)>, id: string): seq<(nat, TaskInfo)> {
    if ls == [] then [] else (if ls[0].1.id == id then [] else [ls[0]]) + DropTask(ls[1..], id)
  }

  lemma {:induction false} TaskEntriesCons(l: (nat, TaskInfo), ls: seq<(nat, TaskInfo)>)
    ensures TaskEntries([l] + ls) == [(l.1.id, l.1)] + TaskEntries(ls)
  {
  }

  lemma {:induction false} DropNothing(ls: seq<(nat, TaskInfo)>, id: string)
    requires forall i :: 0 <= i < |ls| ==> ls[i].1.id != id
    ensures DropTask(ls, id) == ls
  {
    if ls != [] {
      assert forall i :: 0 <= i < |ls[1..]| ==> ls[1..][i] == ls[i + 1];
      DropNothing(ls[1..], id);
      assert ls == [ls[0]] + ls[1..];
    }
  }

  lemma {:induction false} FirstTaskOnly(ls: seq<(nat, TaskInfo)>)
    requires ls != [] && DistinctKeys(TaskEntries(ls))
    ensures forall i :: 0 <= i < |ls[1..]| ==> ls[1..][i].1.id != ls[0].1.id
  {
    var all := TaskEntries(ls);
    forall i | 0 <= i < |ls[1..]| ensures ls[1..][i].1.id != ls[0].1.id {
      assert all[0].0 == ls[0].1.id && all[i + 1].0 == ls[i + 1].1.id;
    }
  }

  lemma {:induction false} RemoveTask(ls: seq<(nat, TaskInfo)>, id: string)
    requires DistinctKeys(TaskEntries(ls))
    ensures Remove(TaskEntries(ls), id) == TaskEntries(DropTask(ls, id))
    decreases |ls|
  {
    if ls != [] {
      var first, rest := ls[0], ls[1..];
      assert ls == [first] + rest;
      TaskEntriesCons(first, rest);
      assert forall i :: 0 <= i < |rest| ==> TaskEntries(rest)[i] == TaskEntries(ls)[i + 1];
      RemoveTask(rest, id);
      RemoveCons((first.1.id, first.1), TaskEntries(rest), id);
      if first.1.id == id {
        FirstTaskOnly(ls);
        DropNothing(rest, id);
      } else {
        TaskEntriesCons(first, DropTask(rest, id));
      }
    }
  }

  lemma {:induction false} EndedSinceStep(ends: seq<Option<string>>, last: Option<string>, i: nat, id: string)
    requires i < |ends|
    ensures EndedSince(ends + [last], i, id) <==> EndedSince(ends, i, id) || last == Some(id)
  {
    var all := ends + [last];
    if EndedSince(all, i, id) && last != Some(id) {
      var k :| i < k < |all| && all[k] == Some(id);
      assert ends[k] == Some(id);
    }
    if EndedSince(ends, i, id) {
      var k :| i < k < |ends| && ends[k] == Some(id);
      assert all[k] == Some(id);
    }
    assert all[|ends|] == last;
  }

  /** One more step drops the launches whose task it ends. */
  lemma {:induction false} KeepStep(ls: seq<(nat, TaskInfo)>, ends: seq<Option<string>>, last: Option<string>)
    requires forall i :: 0 <= i < |ls| ==> ls[i].0 < |ends|
    ensures Keep(ls, ends + [last]) == match last case None => Keep(ls, ends) case Some(id) => DropTask(Keep(ls, ends), id)
    decreases |ls|
  {
    if ls != [] {
      var first, rest := ls[0], ls[1..];
      assert forall i :: 0 <= i < |rest| ==> rest[i] == ls[i + 1];
      KeepStep(rest, ends, last);
      EndedSinceStep(ends, last, first.0, first.1.id);
      var kept := Keep(rest, ends);
      if EndedSince(ends, first.0, first.1.id) {
        assert Keep(ls, ends) == kept;
      } else {
        assert Keep(ls, ends) == [first] + kept && ([first] + kept)[1..] == kept;
      }
    }
  }

  lemma {:induction false} KeepAppend(ls: seq<(nat, TaskInfo)>, l: (nat, TaskInfo), ends: seq<Option<string>>)
    requires l.0 + 1 >= |ends|
    ensures Keep(ls + [l], ends) == Keep(ls, ends) + [l]
  {
    if ls == [] {
      assert ls + [l] == [l] && [l][1..] == [];
      assert !EndedSince(ends, l.0, l.1.id);
    } else {
      assert (ls + [l])[1..] == ls[1..] + [l];
      KeepAppend(ls[1..], l, ends);
    }
  }

  lemma {:induction false} LaunchesBefore(es: seq<Event>)
    ensures forall i :: 0 <= i < |Launches(es)| ==> Launches(es)[i].0 < |es|
  {
    if es != [] { LaunchesBefore(es[..|es| - 1]); }
  }

  lemma {:induction false} StepTasks(s: State, e: Event)
    ensures Step(s, e).tasks ==
            if e.RunTask? && !s.aborted && s.connected then Put(s.tasks, e.task.id, e.task)
            else if e.Acknowledge? && !s.aborted && s.connected && HasKey(s.updates, e.uuid)
                    && Lookup(s.updates, e.uuid).state == TASK_FINISHED
            then Remove(s.tasks, e.taskId)
            else s.tasks
  {
    if e.Acknowledge? { AcknowledgedUpdates(s, e.taskId, e.uuid); }
  }

  /** The look-up in the record finds an outstanding update. */
  lemma {:induction false} LookupOutstanding(us: seq<Update>, uuid: string)
    requires DistinctUuids(us)
    ensures HasKey(Keyed(us), uuid) && Lookup(Keyed(us), uuid).state == TASK_FINISHED <==>
            exists u :: u in us && u.uuid == uuid && u.state == TASK_FINISHED
  {
    var i := Position(Keyed(us), uuid);
    if i < |us| { assert Keyed(us)[i] == (us[i].uuid, us[i]) && us[i] in us; }
    forall u | u in us && u.uuid == uuid ensures i < |us| && u == us[i] {
      var j :| 0 <= j < |us| && us[j] == u;
      assert Keyed(us)[j].0 == uuid;
    }
  }

  /** The update the last step looks up says "finished" exactly when the step ends a task. */
  lemma {:induction false} EndedMeaning(es: seq<Event>)
    requires Legal(es) && es != []
    ensures var n := |es| - 1;
            var s := Run(es[..n]);
            Ended(es) ==
            if es[n].Acknowledge? && !s.aborted && s.connected && HasKey(s.updates, es[n].uuid)
               && Lookup(s.updates, es[n].uuid).state == TASK_FINISHED
            then Some(es[n].taskId) else None
  {
    var front := es[..|es| - 1];
    LegalPrefix(es);
    UpdatesAreOutstanding(front);
    HistoryMentioned(front);
    WithoutIn(Sent(front), Acked(front));
    if es[|es| - 1].Acknowledge? { LookupOutstanding(Outstanding(front), es[|es| - 1].uuid); }
  }

  /** In every legal run the tasks on record are the live launches, in launch order, each task once. */
  lemma {:induction false} TasksAreLive(es: seq<Event>)
    requires Legal(es)
    ensures Run(es).tasks == TaskEntries(Live(es)) && DistinctKeys(Run(es).tasks)
    decreases |es|
  {
    if es != [] {
      var n := |es| - 1;
      var front, last := es[..n], es[n];
      LegalPrefix(es);
      TasksAreLive(front);
      LaunchesBefore(front);
      StepTasks(Run(front), last);
      EndedMeaning(es);
      KeepStep(Launches(front), Ends(front), Ended(es));
      if Ended(es).Some? {
        assert Launches(es) == Launches(front);
        RemoveTask(Live(front), last.taskId);
        RemoveKeepsDistinct(Run(front).tasks, last.taskId);
      } else if last.RunTask? && !Run(front).aborted && Run(front).connected {
        PutKeepsDistinct(Run(front).tasks, last.task.id, last.task);
        KeepAppend(Launches(front), (n, last.task), Ends(es));
        TaskEntriesSnoc(Live(front), (n, last.task));
      } else {
        assert Launches(es) == Launches(front);
      }
    }
  }

  lemma {:induction false} TaskEntriesSnoc(ls: seq<(nat, TaskInfo)>, l: (nat, TaskInfo))
    ensures TaskEntries(ls + [l]) == TaskEntries(ls) + [(l.1.id, l.1)]
  {
  }

  // ------------------------------------------------------------ aborting

  /** The process ignores messages, and the driver does not send. */
  predicate Frozen(s: State) { s.process && s.aborted && s.status != DRIVER_RUNNING }

  predicate Untouched(s: State, t: State) {
    s.updates == t.updates && s.tasks == t.tasks && s.callbacks == t.callbacks && s.outbox == t.outbox
  }

  /** A process is left untouched by everything that can happen exactly when it is aborted and its driver is not running:
      a shutdown alone still lets the driver record updates, a stop alone still lets messages through. */
  lemma {:induction false} FrozenExactly(s: State)
    requires s.process
    ensures (forall e :: Enabled(s, e) ==> Untouched(s, Step(s, e))) <==> Frozen(s)
  {
    if !s.aborted {
      assert !Untouched(s, Step(s, KillTask(""))) && Enabled(s, KillTask(""));
    } else if s.status == DRIVER_RUNNING {
      assert !Untouched(s, Step(s, SendFrameworkMessage(""))) && Enabled(s, SendFrameworkMessage(""));
    }
  }

  lemma {:induction false} FrozenStep(s: State, e: Event)
    requires Frozen(s) && Enabled(s, e)
    ensures Untouched(s, Step(s, e)) && Frozen(Step(s, e))
  {
  }

  lemma {:induction false} DriverInvariant(es: seq<Event>)
    requires Legal(es)
    ensures Run(es).process <==> Run(es).status != DRIVER_NOT_STARTED
    ensures Run(es).status == DRIVER_ABORTED ==> Frozen(Run(es))
    decreases |es|
  {
    if es != [] {
      LegalPrefix(es);
      DriverInvariant(es[..|es| - 1]);
    }
  }

  /** Once the driver is aborted, both records are frozen, no callback is made and no message is sent, whatever follows. */
  lemma {:induction false} AbortIsFinal(es: seq<Event>, n: nat)
    requires Legal(es) && n <= |es| && Run(es[..n]).status == DRIVER_ABORTED
    ensures Untouched(Run(es[..n]), Run(es)) && Frozen(Run(es))
    decreases |es|
  {
    if n == |es| {
      assert es[..n] == es;
      DriverInvariant(es);
    } else {
      var front := es[..|es| - 1];
      LegalPrefix(es);
      assert front[..n] == es[..n];
      AbortIsFinal(front, n);
      FrozenStep(Run(front), es[|es| - 1]);
    }
  }

  // ------------------------------------------------------------ the objects

  /** The driver with its process; the two records are linked hash maps, the logs collect the calls and messages made. */
  class ExecutorDriver {
    var status: DriverStatus
    var process: bool
    var aborted: bool
    var connected: bool
    const updates: LinkedHashMap<string, Update>
    const tasks: LinkedHashMap<string, TaskInfo>
    var callbacks: seq<Callback>
    var outbox: seq<Message>

    ghost predicate Valid()
      reads this, updates, tasks
    {
      updates.Valid() && tasks.Valid() && updates as object != tasks
    }

    /** The state of the protocol. */
    ghost function Abstract(): State
      reads this, updates, tasks
    {
      State(status, process, aborted, connected, updates.entries, tasks.entries, callbacks, outbox)
    }

    constructor ()
      ensures Valid() && Abstract() == INITIAL && fresh(updates) && fresh(tasks)
    {
      status, process, aborted, connected := DRIVER_NOT_STARTED, false, false, false;
      updates := new LinkedHashMap<string, Update>();
      tasks := new LinkedHashMap<string, TaskInfo>();
      callbacks, outbox := [], [];
    }

    method StartDriver() returns (result: DriverStatus)
      requires Valid() && Enabled(Abstract(), Start)
      modifies this
      ensures Valid() && Abstract() == Step(old(Abstract()), Start) && result == status
    {
      process := true;
      if status != DRIVER_NOT_STARTED {
        return status;
      }
      status := DRIVER_RUNNING;
      return status;
    }

    method StopDriver() returns (result: DriverStatus)
      requires Valid()
      modifies this
      ensures Valid() && Abstract() == Step(old(Abstract()), Stop)
      ensures result == if old(status) == DRIVER_ABORTED then DRIVER_ABORTED else status
    {
      if status != DRIVER_RUNNING && status != DRIVER_ABORTED {
        return status;
      }
      var wasAborted := status == DRIVER_ABORTED;
      status := DRIVER_STOPPED;
      return if wasAborted then DRIVER_ABORTED else status;
    }

    method AbortDriver() returns (result: DriverStatus)
      requires Valid()
      modifies this
      ensures Valid() && Abstract() == Step(old(Abstract()), Abort) && result == status
    {
      if status != DRIVER_RUNNING {
        return status;
      }
      aborted := true;
      status := DRIVER_ABORTED;
      return status;
    }

    /** `sendStatusUpdate` of the driver and, behind it, of the process; the uuid is generated there. */
    method SendUpdate(taskId: string, state: TaskState, uuid: string) returns (result: DriverStatus)
      requires Valid()
      modifies this, updates
      ensures Valid() && Abstract() == Step(old(Abstract()), SendStatusUpdate(taskId, state, uuid)) && result == status
    {
      if status != DRIVER_RUNNING {
        return status;
      }
      if state == TASK_STAGING {
        var _ := AbortDriver();
        callbacks := callbacks + [OnError];
        return status;
      }
      var update := Update(uuid, taskId, state);
      updates.Assign(uuid, update);
      outbox := outbox + [StatusUpdate(update)];
      return status;
    }

    method SendMessage(data: string) returns (result: DriverStatus)
      requires Valid()
      modifies this
      ensures Valid() && Abstract() == Step(old(Abstract()), SendFrameworkMessage(data)) && result == status
    {
      if status == DRIVER_RUNNING {
        outbox := outbox + [ToFramework(data)];
      }
      return status;
    }

    method OnExecutorRegistered(again: bool)
      requires Valid() && process
      modifies this
      ensures Valid() && Abstract() == Step(old(Abstract()), if again then Reregistered else Registered)
    {
      if aborted {
        return;
      }
      connected := true;
      callbacks := callbacks + [if again then OnReregistered else OnRegistered];
    }

    /** `reconnect`: re-register with all unacknowledged updates and all tasks. */
    method OnReconnect()
      requires Valid() && process
      modifies this
      ensures Valid() && Abstract() == Step(old(Abstract()), Reconnect)
    {
      if aborted {
        return;
      }
      var us := updates.Values();
      var ts := tasks.Values();
      outbox := outbox + [Reregister(us, ts)];
    }

    method OnRunTask(task: TaskInfo)
      requires Valid() && Enabled(Abstract(), RunTask(task))
      modifies this, tasks
      ensures Valid() && Abstract() == Step(old(Abstract()), RunTask(task))
    {
      if aborted || !connected {
        return;
      }
      tasks.Assign(task.id, task);
      callbacks := callbacks + [OnLaunch(task)];
    }

    method OnKillTask(id: string)
      requires Valid() && process
      modifies this
      ensures Valid() && Abstract() == Step(old(Abstract()), KillTask(id))
    {
      if !aborted {
        callbacks := callbacks + [OnKill(id)];
      }
    }

    /** `statusUpdateAcknowledgement` */
    method OnAcknowledgement(taskId: string, uuid: string)
      requires Valid() && process
      modifies updates, tasks
      ensures Valid() && Abstract() == Step(old(Abstract()), Acknowledge(taskId, uuid))
    {
      if aborted || !connected {
        return;
      }
      var update := updates.Index(uuid, DEFAULT_UPDATE);
      var eraseTasks := update.state == TASK_FINISHED;
      var _ := updates.Erase(uuid);
      if eraseTasks {
        var _ := tasks.Erase(taskId);
      }
    }

    method OnFrameworkMessage(data: string)
      requires Valid() && process
      modifies this
      ensures Valid() && Abstract() == Step(old(Abstract()), FrameworkMessage(data))
    {
      if !aborted && connected {
        callbacks := callbacks + [OnMessage(data)];
      }
    }

    /** `shutdown`, in the parent process. */
    method OnShutdownMessage()
      requires Valid() && process
      modifies this
      ensures Valid() && Abstract() == Step(old(Abstract()), Shutdown)
    {
      if aborted {
        return;
      }
      callbacks := callbacks + [OnShutdown];
      aborted := true;
    }
  }
}
