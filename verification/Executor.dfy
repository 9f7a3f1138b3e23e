/** The executor's record of unacknowledged updates and of tasks. */
module Executor {
  import opened LinkedMap

  datatype TaskState =
    | TASK_STAGING | TASK_STARTING | TASK_RUNNING | TASK_KILLING | TASK_FINISHED | TASK_FAILED | TASK_KILLED
    | TASK_ERROR | TASK_LOST | TASK_DROPPED | TASK_UNREACHABLE | TASK_GONE | TASK_GONE_BY_OPERATOR | TASK_UNKNOWN

  datatype Status = Status(task: string, state: TaskState)

  datatype Update = Update(uuid: string, status: Status)

  datatype Task = Task(id: string, info: string)

  /** Calls of the handlers; uuids are given by the caller of `sendStatusUpdate`. */
  datatype Event =
    | Registered
    | Reregistered
    | RunTask(task: Task)
    | Acknowledgement(taskId: string, uuid: string)
    | SendUpdate(status: Status, id: string)
    | Abort
    | Shutdown
    | Reconnect

  datatype Message = StatusUpdate(update: Update) | Reregister(updates: seq<Update>, tasks: seq<Task>)

  datatype State = State(
    updates: seq<Pair<string, Update>>,
    tasks: seq<Pair<string, Task>>,
    connected: bool,
    aborted: bool,
    sent: seq<Message>)

  const INITIAL: State := State([], [], false, false, [])

  /** A default-constructed update; the first task state is TASK_STAGING. */
  const EMPTY_UPDATE: Update := Update("", Status("", TASK_STAGING))

  function AcknowledgementStep(s: State, taskId: string, uuid: string): State {
    var touched := if Has(s.updates, uuid) then s.updates else Put(s.updates, uuid, EMPTY_UPDATE);
    var erase := Lookup(touched, uuid).Some? && Lookup(touched, uuid).value.status.state == TASK_FINISHED;
    s.(updates := Remove(touched, uuid), tasks := if erase then Remove(s.tasks, taskId) else s.tasks)
  }

  function Step(s: State, e: Event): State {
    match e
    case Registered => if s.aborted then s else s.(connected := true)
    case Reregistered => if s.aborted then s else s.(connected := true)
    case RunTask(task) => if s.aborted || !s.connected then s else s.(tasks := Put(s.tasks, task.id, task))
    case Acknowledgement(taskId, uuid) =>
      if s.aborted || !s.connected then s else AcknowledgementStep(s, taskId, uuid)
    case SendUpdate(status, id) =>
      if status.state == TASK_STAGING then s.(aborted := true)
      else
        var update := Update(id, status);
        s.(updates := Put(s.updates, id, update), sent := s.sent + [StatusUpdate(update)])
    case Abort => s.(aborted := true)
    case Shutdown => s.(aborted := true)
    case Reconnect =>
      if s.aborted then s else s.(sent := s.sent + [Reregister(ValuesOf(s.updates), ValuesOf(s.tasks))])
  }

  function Run(es: seq<Event>): State {
    if es == [] then INITIAL else Step(Run(es[..|es| - 1]), es[|es| - 1])
  }

  // ---------------------------------------------------------------------
  // What the history of events says
  // ---------------------------------------------------------------------

  predicate Aborts(e: Event) {
    e.Abort? || e.Shutdown? || (e.SendUpdate? && e.status.state == TASK_STAGING)
  }

  ghost predicate Stopped(es: seq<Event>) {
    exists i :: 0 <= i < |es| && Aborts(es[i])
  }

  ghost predicate Online(es: seq<Event>) {
    exists i :: 0 <= i < |es| && (es[i].Registered? || es[i].Reregistered?) && !Stopped(es[..i])
  }

  /** The driver was registered and not aborted before event `j`. */
  ghost predicate Listening(es: seq<Event>, j: nat)
    requires j <= |es|
  {
    Online(es[..j]) && !Stopped(es[..j])
  }

  /** Event `j` acknowledges a uuid and is not ignored. */
  ghost predicate Acknowledges(es: seq<Event>, j: nat, uuid: string)
    requires j < |es|
  {
    es[j].Acknowledgement? && es[j].uuid == uuid && Listening(es, j)
  }

  ghost predicate Acknowledged(es: seq<Event>, i: nat)
    requires i < |es| && es[i].SendUpdate?
  {
    exists j :: i < j < |es| && Acknowledges(es, j, es[i].id)
  }

  /** Event `i` sent an update that no later event acknowledged. */
  ghost predicate IsPending(es: seq<Event>, i: nat)
    requires i < |es|
  {
    es[i].SendUpdate? && es[i].status.state != TASK_STAGING && !Acknowledged(es, i)
  }

  /** Event `j` acknowledges a pending TASK_FINISHED update and names this task. */
  ghost predicate Finishes(es: seq<Event>, j: nat, task: string)
    requires j < |es|
  {
    && es[j].Acknowledgement? && es[j].taskId == task && Listening(es, j)
    && exists h :: 0 <= h < j && IsPending(es[..j], h) && es[h].id == es[j].uuid && es[h].status.state == TASK_FINISHED
  }

  /** Event `i` launched a task that no later event finished. */
  ghost predicate IsLaunched(es: seq<Event>, i: nat)
    requires i < |es|
  {
    es[i].RunTask? && Listening(es, i) && forall j :: i < j < |es| ==> !Finishes(es, j, es[i].task.id)
  }

  ghost function UpdateAt(es: seq<Event>, i: nat): seq<Pair<string, Update>>
    requires i < |es|
  {
    if IsPending(es, i) then [Pair(es[i].id, Update(es[i].id, es[i].status))] else []
  }

  ghost function Pending(es: seq<Event>, from: nat): seq<Pair<string, Update>>
    requires from <= |es|
    decreases |es| - from
  {
    if from == |es| then [] else UpdateAt(es, from) + Pending(es, from + 1)
  }

  ghost function TaskAt(es: seq<Event>, i: nat): seq<Pair<string, Task>>
    requires i < |es|
  {
    if IsLaunched(es, i) then [Pair(es[i].task.id, es[i].task)] else []
  }

  ghost function Launched(es: seq<Event>, from: nat): seq<Pair<string, Task>>
    requires from <= |es|
    decreases |es| - from
  {
    if from == |es| then [] else TaskAt(es, from) + Launched(es, from + 1)
  }

  /** Every update has its own uuid, and no task is launched while it is still there. */
  ghost predicate Sane(es: seq<Event>) {
    OwnUuids(es) && forall j :: 0 <= j < |es| ==> !Relaunches(es, j)
  }

  ghost predicate OwnUuids(es: seq<Event>) {
    forall i, j :: 0 <= i < j < |es| && es[i].SendUpdate? && es[j].SendUpdate? ==> es[i].id != es[j].id
  }

  /** Event `j` launches a task that is still there. */
  ghost predicate Relaunches(es: seq<Event>, j: nat)
    requires j < |es|
  {
    es[j].RunTask? && Listening(es, j) && Has(Launched(es[..j], 0), es[j].task.id)
  }

  // ---------------------------------------------------------------------
  // One more event
  // ---------------------------------------------------------------------

  lemma FlagsGrow(p: seq<Event>, e: Event)
    ensures Stopped(p + [e]) <==> Stopped(p) || Aborts(e)
    ensures Online(p + [e]) <==> Online(p) || ((e.Registered? || e.Reregistered?) && !Stopped(p))
  {
    var es := p + [e];
    assert es[|p|] == e && es[..|p|] == p;
    forall i | 0 <= i < |p| ensures es[i] == p[i] && es[..i] == p[..i] {}
    if Stopped(p) {
      var i :| 0 <= i < |p| && Aborts(p[i]);
      assert Aborts(es[i]);
    }
    if Online(p) {
      var i :| 0 <= i < |p| && (p[i].Registered? || p[i].Reregistered?) && !Stopped(p[..i]);
      assert es[i] == p[i] && !Stopped(es[..i]);
    }
  }

  lemma ListeningGrows(p: seq<Event>, e: Event, j: nat)
    requires j <= |p|
    ensures Listening(p + [e], j) == Listening(p, j)
  {
    assert (p + [e])[..j] == p[..j];
  }

  lemma AcknowledgedGrows(p: seq<Event>, e: Event, i: nat)
    requires i < |p| && p[i].SendUpdate?
    ensures Acknowledged(p + [e], i) <==> Acknowledged(p, i) || Acknowledges(p + [e], |p|, p[i].id)
  {
    hide Listening;
    var es := p + [e];
    assert es[|p|] == e && es[i] == p[i];
    forall j | i < j < |p| ensures Acknowledges(es, j, p[i].id) == Acknowledges(p, j, p[i].id) {
      ListeningGrows(p, e, j);
    }
    if Acknowledged(p, i) {
      var j :| i < j < |p| && Acknowledges(p, j, p[i].id);
      assert Acknowledges(es, j, es[i].id);
    }
  }

  ghost predicate Effective(p: seq<Event>, e: Event) {
    e.Acknowledgement? && Online(p) && !Stopped(p)
  }

  lemma UpdateAtGrows(p: seq<Event>, e: Event, i: nat)
    requires i < |p|
    ensures UpdateAt(p + [e], i) == if Effective(p, e) then Without(UpdateAt(p, i), e.uuid) else UpdateAt(p, i)
  {
    hide Acknowledged, Online, Stopped;
    assert (p + [e])[i] == p[i] && (p + [e])[|p|] == e && (p + [e])[..|p|] == p;
    if p[i].SendUpdate? {
      AcknowledgedGrows(p, e, i);
    }
  }

  lemma LastUpdate(p: seq<Event>, e: Event)
    ensures Pending(p + [e], |p|) ==
            if e.SendUpdate? && e.status.state != TASK_STAGING then [Pair(e.id, Update(e.id, e.status))] else []
  {
    assert (p + [e])[|p|] == e;
    assert Pending(p + [e], |p| + 1) == [];
  }

  lemma {:induction false} WithoutSplits<K, V>(a: seq<Pair<K, V>>, b: seq<Pair<K, V>>, k: K)
    ensures Without(a + b, k) == Without(a, k) + Without(b, k)
  {
    if a == [] {
      assert a + b == b;
    } else {
      assert (a + b)[0] == a[0] && (a + b)[1..] == a[1..] + b;
      WithoutSplits(a[1..], b, k);
    }
  }

  /** An effective acknowledgement drops its update, a send adds one, nothing else matters. */
  lemma {:induction false} PendingGrows(p: seq<Event>, e: Event, i: nat)
    requires i <= |p|
    ensures Pending(p + [e], i) ==
            (if Effective(p, e) then Without(Pending(p, i), e.uuid) else Pending(p, i)) + Pending(p + [e], |p|)
    decreases |p| - i
  {
    hide Effective, UpdateAt, Without;
    if i == |p| {
      WithoutNothing(p, e);
    } else {
      PendingGrows(p, e, i + 1);
      UpdateAtGrows(p, e, i);
      var here, last := UpdateAt(p + [e], i), Pending(p + [e], |p|);
      if Effective(p, e) {
        EffectiveIsAcknowledgement(p, e);
        WithoutSplits(UpdateAt(p, i), Pending(p, i + 1), e.uuid);
        var later := Without(Pending(p, i + 1), e.uuid);
        assert here + (later + last) == here + later + last;
      } else {
        assert here + (Pending(p, i + 1) + last) == here + Pending(p, i + 1) + last;
      }
    }
  }

  lemma WithoutNothing(p: seq<Event>, e: Event)
    ensures Effective(p, e) ==> Without(Pending(p, |p|), e.uuid) == []
  {
  }

  lemma EffectiveIsAcknowledgement(p: seq<Event>, e: Event)
    requires Effective(p, e)
    ensures e.Acknowledgement?
  {
  }

  // ---------------------------------------------------------------------
  // The same for tasks
  // ---------------------------------------------------------------------

  lemma FinishesGrows(p: seq<Event>, e: Event, j: nat, task: string)
    requires j < |p|
    ensures Finishes(p + [e], j, task) == Finishes(p, j, task)
  {
    hide Online, Stopped, IsPending;
    var es := p + [e];
    assert es[j] == p[j] && es[..j] == p[..j];
    assert forall h :: 0 <= h < j ==> es[h] == p[h];
  }

  lemma TaskAtGrows(p: seq<Event>, e: Event, i: nat)
    requires i < |p|
    ensures TaskAt(p + [e], i) ==
            if e.Acknowledgement? && Finishes(p + [e], |p|, e.taskId) then Without(TaskAt(p, i), e.taskId) else TaskAt(p, i)
  {
    hide Listening;
    var es := p + [e];
    assert es[i] == p[i] && es[|p|] == e;
    ListeningGrows(p, e, i);
    if p[i].RunTask? {
      var task := p[i].task.id;
      forall j | i < j < |p| ensures Finishes(es, j, task) == Finishes(p, j, task) {
        FinishesGrows(p, e, j, task);
      }
      IsLaunchedGrows(p, e, i);
    }
  }

  lemma IsLaunchedGrows(p: seq<Event>, e: Event, i: nat)
    requires i < |p| && p[i].RunTask?
    ensures IsLaunched(p + [e], i) <==> IsLaunched(p, i) && !Finishes(p + [e], |p|, p[i].task.id)
  {
    hide Listening, Finishes;
    var es := p + [e];
    assert es[i] == p[i];
    ListeningGrows(p, e, i);
    forall j | i < j < |p| ensures Finishes(es, j, p[i].task.id) == Finishes(p, j, p[i].task.id) {
      FinishesGrows(p, e, j, p[i].task.id);
    }
  }

  lemma LastTask(p: seq<Event>, e: Event)
    ensures Launched(p + [e], |p|) == if e.RunTask? && Online(p) && !Stopped(p) then [Pair(e.task.id, e.task)] else []
  {
    hide Online, Stopped;
    assert (p + [e])[|p|] == e && (p + [e])[..|p|] == p;
    assert Launched(p + [e], |p| + 1) == [];
  }

  lemma {:induction false} LaunchedGrows(p: seq<Event>, e: Event, i: nat)
    requires i <= |p|
    ensures Launched(p + [e], i) ==
            (if e.Acknowledgement? && Finishes(p + [e], |p|, e.taskId) then Without(Launched(p, i), e.taskId)
             else Launched(p, i)) + Launched(p + [e], |p|)
    decreases |p| - i
  {
    hide Finishes, TaskAt, Without, Listening, IsLaunched;
    var es, last := p + [e], Launched(p + [e], |p|);
    if i == |p| {
      assert Launched(p, i) == [];
      if e.Acknowledgement? {
        NoneWithout<Task>(e.taskId);
      }
      assert last == [] + last;
    } else {
      LaunchedGrows(p, e, i + 1);
      TaskAtGrows(p, e, i);
      assert Launched(es, i) == TaskAt(es, i) + Launched(es, i + 1);
      assert Launched(p, i) == TaskAt(p, i) + Launched(p, i + 1);
      if e.Acknowledgement? {
        WithoutSplits(TaskAt(p, i), Launched(p, i + 1), e.taskId);
      }
    }
  }

  lemma NoneWithout<V>(k: string)
    ensures Without<string, V>([], k) == []
  {
  }

  // ---------------------------------------------------------------------
  // Every run
  // ---------------------------------------------------------------------

  function PairAt(es: seq<Event>, h: nat): Pair<string, Update>
    requires h < |es| && es[h].SendUpdate?
  {
    Pair(es[h].id, Update(es[h].id, es[h].status))
  }

  lemma {:induction false} PendingCameFrom(es: seq<Event>, from: nat, k: nat) returns (h: nat)
    requires from <= |es| && k < |Pending(es, from)|
    ensures from <= h < |es| && IsPending(es, h) && Pending(es, from)[k] == PairAt(es, h)
    decreases |es| - from
  {
    hide IsPending;
    var n := |UpdateAt(es, from)|;
    if k < n {
      h := from;
    } else {
      h := PendingCameFrom(es, from + 1, k - n);
    }
  }

  lemma {:induction false} PendingIsListed(es: seq<Event>, from: nat, h: nat) returns (k: nat)
    requires from <= h < |es| && IsPending(es, h)
    ensures k < |Pending(es, from)| && Pending(es, from)[k] == PairAt(es, h)
    decreases |es| - from
  {
    hide IsPending;
    if from == h {
      k := 0;
    } else {
      var later := PendingIsListed(es, from + 1, h);
      k := |UpdateAt(es, from)| + later;
    }
  }

  ghost predicate HasFinished(updates: seq<Pair<string, Update>>, uuid: string) {
    Lookup(updates, uuid).Some? && Lookup(updates, uuid).value.status.state == TASK_FINISHED
  }

  lemma FinishedIsListed(p: seq<Event>, uuid: string)
    requires Unique(Pending(p, 0))
    ensures HasFinished(Pending(p, 0), uuid) <==>
            exists h :: 0 <= h < |p| && IsPending(p, h) && p[h].id == uuid && p[h].status.state == TASK_FINISHED
  {
    hide Acknowledged, Pending;
    var s := Pending(p, 0);
    if HasFinished(s, uuid) {
      var h := PendingCameFrom(p, 0, Find(s, uuid));
      assert p[h].id == uuid && p[h].status.state == TASK_FINISHED;
    }
    if h :| 0 <= h < |p| && IsPending(p, h) && p[h].id == uuid && p[h].status.state == TASK_FINISHED {
      var k := PendingIsListed(p, 0, h);
      FindIs(s, uuid, k);
    }
  }

  lemma FinishesMeans(p: seq<Event>, e: Event)
    requires e.Acknowledgement? && Unique(Pending(p, 0))
    ensures Finishes(p + [e], |p|, e.taskId) <==> Effective(p, e) && HasFinished(Pending(p, 0), e.uuid)
  {
    hide IsPending, HasFinished, Online, Stopped;
    var es := p + [e];
    assert es[|p|] == e && es[..|p|] == p;
    assert forall h :: 0 <= h < |p| ==> es[h] == p[h];
    FinishedIsListed(p, e.uuid);
  }

  /** The acknowledgement of a uuid that is not recorded changes nothing. */
  lemma UnknownUuid(s: State, taskId: string, uuid: string)
    requires Unique(s.updates) && !Has(s.updates, uuid)
    ensures Step(s, Acknowledgement(taskId, uuid)) == s
  {
    LookupAfterPut(s.updates, uuid, EMPTY_UPDATE, uuid);
    PutThenRemove(s.updates, uuid, EMPTY_UPDATE);
  }

  /** What a handled acknowledgement removes. */
  lemma AcknowledgementMeans(s: State, taskId: string, uuid: string)
    requires Unique(s.updates) && Unique(s.tasks)
    ensures var t := AcknowledgementStep(s, taskId, uuid);
            && t == s.(updates := Without(s.updates, uuid),
                       tasks := if HasFinished(s.updates, uuid) then Without(s.tasks, taskId) else s.tasks)
            && Unique(t.updates) && Unique(t.tasks)
  {
    hide Find;
    LookupAfterPut(s.updates, uuid, EMPTY_UPDATE, uuid);
    PutThenRemove(s.updates, uuid, EMPTY_UPDATE);
    RemoveIsWithout(s.updates, uuid);
    RemoveIsWithout(s.tasks, taskId);
    LookupAfterRemove(s.updates, uuid, uuid);
    LookupAfterRemove(s.tasks, taskId, taskId);
  }

  /** The state says exactly what the history says. */
  ghost predicate Agrees(s: State, es: seq<Event>) {
    && s.aborted == Stopped(es) && s.connected == Online(es)
    && s.updates == Pending(es, 0) && s.tasks == Launched(es, 0)
    && Unique(s.updates) && Unique(s.tasks)
  }

  lemma SanePrefix(p: seq<Event>, e: Event)
    requires Sane(p + [e])
    ensures Sane(p)
    ensures e.RunTask? && Online(p) && !Stopped(p) ==> !Has(Launched(p, 0), e.task.id)
    ensures e.SendUpdate? ==> forall i :: 0 <= i < |p| && p[i].SendUpdate? ==> p[i].id != e.id
  {
    hide Online, Stopped, OwnUuids, Relaunches;
    UuidsOfPrefix(p, e);
    RelaunchesLast(p, e);
    forall j | 0 <= j < |p| ensures !Relaunches(p, j) {
      RelaunchesGrows(p, e, j);
    }
  }

  lemma UuidsOfPrefix(p: seq<Event>, e: Event)
    requires OwnUuids(p + [e])
    ensures OwnUuids(p)
    ensures e.SendUpdate? ==> forall i :: 0 <= i < |p| && p[i].SendUpdate? ==> p[i].id != e.id
  {
    var es := p + [e];
    assert es[|p|] == e && forall i :: 0 <= i < |p| ==> es[i] == p[i];
  }

  lemma RelaunchesGrows(p: seq<Event>, e: Event, j: nat)
    requires j < |p|
    ensures Relaunches(p + [e], j) == Relaunches(p, j)
  {
    hide Online, Stopped, Launched, Has;
    assert (p + [e])[..j] == p[..j] && (p + [e])[j] == p[j];
  }

  lemma RelaunchesLast(p: seq<Event>, e: Event)
    ensures Relaunches(p + [e], |p|) <==> e.RunTask? && Online(p) && !Stopped(p) && Has(Launched(p, 0), e.task.id)
  {
    hide Online, Stopped, Launched, Has;
    assert (p + [e])[..|p|] == p && (p + [e])[|p|] == e;
  }

  lemma NewUuid(p: seq<Event>, id: string)
    requires forall i :: 0 <= i < |p| && p[i].SendUpdate? ==> p[i].id != id
    ensures !Has(Pending(p, 0), id)
  {
    hide Acknowledged, Pending;
    var k := Find(Pending(p, 0), id);
    if k < |Pending(p, 0)| {
      var h := PendingCameFrom(p, 0, k);
    }
  }

  lemma StepAgrees(s: State, p: seq<Event>, e: Event)
    requires Agrees(s, p) && Sane(p + [e])
    ensures Agrees(Step(s, e), p + [e])
  {
    hide Online, Stopped, Pending, Launched, Without, Put, Find, Sane, HasFinished, AcknowledgementStep, Finishes;
    FlagsGrow(p, e);
    SanePrefix(p, e);
    PendingGrows(p, e, 0);
    LaunchedGrows(p, e, 0);
    LastUpdate(p, e);
    LastTask(p, e);
    if e.Acknowledgement? {
      FinishesMeans(p, e);
      AcknowledgementMeans(s, e.taskId, e.uuid);
    } else if e.SendUpdate? && e.status.state != TASK_STAGING {
      NewUuid(p, e.id);
      AppendsNew(s.updates, e.id, Update(e.id, e.status));
    } else if e.RunTask? && s.connected && !s.aborted {
      AppendsNew(s.tasks, e.task.id, e.task);
    }
  }

  lemma AppendsNew<V>(s: seq<Pair<string, V>>, k: string, v: V)
    requires Unique(s) && !Has(s, k)
    ensures Put(s, k, v) == s + [Pair(k, v)] && Unique(Put(s, k, v))
  {
  }

  /** After every run the record is the updates sent and not acknowledged, in the
      order of sending, and the tasks launched and not finished, in the order of
      launching. */
  lemma {:induction false} RunAgrees(es: seq<Event>)
    requires Sane(es)
    ensures Agrees(Run(es), es)
  {
    hide Sane, Step;
    if es == [] {
      EmptyAgrees();
    } else {
      var p, e := es[..|es| - 1], es[|es| - 1];
      assert p + [e] == es;
      SanePrefix(p, e);
      RunAgrees(p);
      StepAgrees(Run(p), p, e);
    }
  }

  lemma EmptyAgrees()
    ensures Agrees(INITIAL, [])
  {
  }

  /** The message sent on a reconnect, after every run. */
  lemma ReconnectMeans(es: seq<Event>)
    requires Sane(es)
    ensures Run(es + [Reconnect]) ==
            if Stopped(es) then Run(es)
            else Run(es).(sent := Run(es).sent + [Reregister(ValuesOf(Pending(es, 0)), ValuesOf(Launched(es, 0)))])
  {
    hide Sane, Pending, Launched, Stopped, Online;
    RunAgrees(es);
    assert (es + [Reconnect])[..|es|] == es && (es + [Reconnect])[|es|] == Reconnect;
  }

  /** Every acknowledgement names the task of the update it acknowledges. */
  ghost predicate NamesOwnTasks(es: seq<Event>) {
    forall h, j :: 0 <= h < j < |es| && es[h].SendUpdate? && es[j].Acknowledgement? && es[h].id == es[j].uuid ==>
      es[j].taskId == es[h].status.task
  }

  /** Then a task is removed exactly by the acknowledgement of its own TASK_FINISHED update. */
  lemma OwnTask(es: seq<Event>, j: nat, task: string)
    requires NamesOwnTasks(es) && j < |es|
    ensures Finishes(es, j, task) <==>
            && es[j].Acknowledgement? && Listening(es, j)
            && exists h :: 0 <= h < j && IsPending(es[..j], h) && es[h].id == es[j].uuid
                           && es[h].status == Status(task, TASK_FINISHED)
  {
    hide Listening, Acknowledged;
  }
}

/** The handlers of the executor process, on its two linked maps. */
module ExecutorProcess {
  import opened LinkedMap
  import opened Executor

  class UrbExecutorProcess {
    const updates: LinkedHashMap<string, Update>
    const tasks: LinkedHashMap<string, Task>
    var connected: bool
    var aborted: bool
    var sent: seq<Message>

    ghost predicate Valid()
      reads this, updates, tasks
    {
      updates.Valid() && tasks.Valid() && updates.initial == EMPTY_UPDATE
    }

    ghost function View(): State
      reads this, updates, tasks
    {
      State(updates.Contents(), tasks.Contents(), connected, aborted, sent)
    }

    constructor ()
      ensures Valid() && fresh(updates) && fresh(tasks) && View() == INITIAL
    {
      updates := new LinkedHashMap(EMPTY_UPDATE);
      tasks := new LinkedHashMap(Task("", ""));
      connected := false;
      aborted := false;
      sent := [];
    }

    method RegisteredHandler()
      requires Valid()
      modifies this
      ensures Valid() && View() == Step(old(View()), Registered)
    {
      if aborted {
        return;
      }
      connected := true;
    }

    method ReregisteredHandler()
      requires Valid()
      modifies this
      ensures Valid() && View() == Step(old(View()), Reregistered)
    {
      if aborted {
        return;
      }
      connected := true;
    }

    method ReconnectHandler()
      requires Valid()
      modifies this
      ensures Valid() && View() == Step(old(View()), Reconnect)
    {
      if aborted {
        return;
      }
      var unacknowledged := updates.Values();
      var launched := tasks.Values();
      sent := sent + [Reregister(unacknowledged, launched)];
    }

    /** A task that is still recorded fails the `CHECK`, which ends the process. */
    method RunTaskHandler(task: Task) returns (checked: bool)
      requires Valid()
      modifies this, tasks
      ensures checked <==> !(old(connected) && !old(aborted) && Has(old(tasks.Contents()), task.id))
      ensures Valid() && View() == if checked then Step(old(View()), RunTask(task)) else old(View())
    {
      hide Linked, Pairs, Find, Put;
      if aborted || !connected {
        return true;
      }
      var known := tasks.Contains(task.id);
      if known {
        return false;
      }
      tasks.Set(task.id, task);
      return true;
    }

    method AcknowledgementHandler(taskId: string, uuid: string)
      requires Valid()
      modifies this, updates, tasks
      ensures Valid() && View() == Step(old(View()), Acknowledgement(taskId, uuid))
    {
      hide Linked, Pairs, Find, Put, Remove;
      if aborted || !connected {
        return;
      }
      var update := updates.Touch(uuid);
      var eraseTasks := update.status.state == TASK_FINISHED;
      var n := updates.Erase(uuid);
      if eraseTasks {
        n := tasks.Erase(taskId);
      }
    }

    method SendStatusUpdate(status: Status, uuid: string)
      requires Valid()
      modifies this, updates
      ensures Valid() && View() == Step(old(View()), SendUpdate(status, uuid))
    {
      hide Linked, Pairs, Find, Put;
      if status.state == TASK_STAGING {
        AbortHandler();
        return;
      }
      var update := Update(uuid, status);
      updates.Set(uuid, update);
      sent := sent + [StatusUpdate(update)];
    }

    method ShutdownHandler()
      requires Valid()
      modifies this
      ensures Valid() && View() == Step(old(View()), Shutdown)
    {
      if aborted {
        return;
      }
      aborted := true;
    }

    method AbortHandler()
      requires Valid()
      modifies this
      ensures Valid() && View() == Step(old(View()), Abort)
    {
      aborted := true;
    }
  }
}
