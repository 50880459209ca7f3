/** Job and Pod events against the store and the in-memory index of running Jobs, and the recovery of
    runs at startup. */
module Watcher {
  import opened Common
  import opened Store
  import CronJobs

  datatype Kind = JobComplete | JobFailed | OtherCondition

  datatype Condition = Condition(kind: Kind, isTrue: bool)

  // `owner` is the name of the owning CronJob, if there is one.
  datatype Job = Job(uid: string, namespace: string, name: string, owner: Option<string>, manual: bool,
                     startTime: Option<int>, completionTime: Option<int>, conditions: seq<Condition>)

  // What a finished Job's pod tells: its exit code and when it ended.
  datatype Ended = Ended(exitCode: int, finished: Option<int>)

  datatype Phase = PodRunning | PodSucceeded | PodFailed | PodOther

  predicate HasTrue(conditions: seq<Condition>, kind: Kind) {
    Condition(kind, true) in conditions
  }

  predicate JobIsDone(job: Job) {
    job.completionTime.Some? || HasTrue(job.conditions, JobComplete) || HasTrue(job.conditions, JobFailed)
  }

  function StatusOf(job: Job): Status {
    if HasTrue(job.conditions, JobComplete) then Succeeded else Failed
  }

  function CronJobId(cluster: string, job: Job): string
    requires job.owner.Some?
  {
    CronJobs.Id(cluster, job.namespace, job.owner.value)
  }

  function StartOf(job: Job, now: int): int {
    if job.startTime.Some? then job.startTime.value else now
  }

  // Which of the statements of a handler fail for outside reasons.
  datatype Faults = Faults(read: bool, upsert: bool, finish: bool, exit: bool)

  const NO_FAULTS := Faults(false, false, false, false)

  // --- What the handlers do ---------------------------------------------------------------------

  datatype World = World(t: Tables, index: map<string, string>)

  function UpsertOf(cluster: string, job: Job, now: int, status: Status): Statement
    requires job.owner.Some?
  {
    UpsertJobRun(job.uid, CronJobId(cluster, job), job.name, job.manual, StartOf(job, now), status)
  }

  // The row of a finished Job after its backfill.
  function BackfilledRow(t: Tables, cluster: string, job: Job, now: int, pod: Option<Ended>, faults: Faults): Run
    requires job.owner.Some?
  {
    var row := UpsertedRun(t, job.uid, CronJobId(cluster, job), job.name, job.manual, StartOf(job, now), StatusOf(job));
    var done := if job.completionTime.Some? && !faults.finish
                then row.(finished := job.completionTime, exitCode := Some(0), retries := 0)
                else row;
    if pod.Some? && !faults.exit
    then done.(finished := OrElse(job.completionTime, pod.value.finished),
               exitCode := Some(pod.value.exitCode), retries := 0)
    else done
  }

  predicate AlreadySucceeded(t: Tables, job: Job, faults: Faults) {
    !faults.read && job.uid in t.runs && t.runs[job.uid].status == Succeeded
  }

  function Backfilled(t: Tables, cluster: string, job: Job, now: int, pod: Option<Ended>, faults: Faults): Tables
    requires job.owner.Some?
  {
    if AlreadySucceeded(t, job, faults) then t
    else if !Lands(t, Write(UpsertOf(cluster, job, now, StatusOf(job)), faults.upsert)) then t
    else t.(runs := t.runs[job.uid := BackfilledRow(t, cluster, job, now, pod, faults)])
  }

  function Added(w: World, cluster: string, job: Job, initial: bool, now: int, pod: Option<Ended>,
                 faults: Faults): World {
    if job.owner.None? then w
    else if initial && JobIsDone(job) then w.(t := Backfilled(w.t, cluster, job, now, pod, faults))
    else World(After(w.t, Write(UpsertOf(cluster, job, now, Running), faults.upsert)), w.index[job.name := job.uid])
  }

  function Deleted(w: World, job: Job, now: int, faults: Faults): World {
    var t := if !faults.read && job.uid in w.t.runs && w.t.runs[job.uid].status == Running
             then After(w.t, Write(MarkRunFailed(job.uid, now), faults.upsert)) else w.t;
    World(t, w.index - {job.name})
  }

  // A pod event of a Job whose run was looked up as `run`; empty when it was not found.
  function PodSeen(w: World, jobName: string, phase: Phase, run: string, finished: int, exitCode: int, retries: int,
                   fault: bool): World {
    if run == "" || (phase != PodSucceeded && phase != PodFailed) then w
    else
      var status := if phase == PodFailed then Failed else Succeeded;
      World(After(w.t, Write(UpdateJobRunStatus(run, status, Some(finished), exitCode, retries), fault)),
        w.index - {jobName})
  }

  function WithRow(t: Tables, id: string, row: Run): Tables {
    t.(runs := t.runs[id := row])
  }

  function Finished(row: Run, status: Status, finished: Option<int>, exitCode: int, fault: bool): Run {
    if fault then row else row.(status := status, finished := finished, exitCode := Some(exitCode), retries := 0)
  }

  lemma RowUpdate(t: Tables, id: string, row: Run, status: Status, finished: Option<int>, exitCode: int, fault: bool)
    ensures After(WithRow(t, id, row), Write(UpdateJobRunStatus(id, status, finished, exitCode, 0), fault)) ==
            WithRow(t, id, Finished(row, status, finished, exitCode, fault))
  {
    assert t.runs[id := row][id := Finished(row, status, finished, exitCode, fault)] ==
           t.runs[id := Finished(row, status, finished, exitCode, fault)];
  }

  // --- Classes ----------------------------------------------------------------------------------

  class RunIndex {
    var index: map<string, string>

    constructor ()
      ensures index == map[]
    {
      index := map[];
    }

    method Set(jobName: string, runID: string)
      modifies this
      ensures index == old(index)[jobName := runID]
    {
      index := index[jobName := runID];
    }

    method Get(jobName: string) returns (runID: string)
      ensures runID == if jobName in index then index[jobName] else ""
    {
      runID := if jobName in index then index[jobName] else "";
    }

    method Delete(jobName: string)
      modifies this
      ensures index == old(index) - {jobName}
    {
      index := index - {jobName};
    }
  }

  class JobHandler {
    const clusterID: string
    const store: SQLiteStore
    const runIndex: RunIndex

    constructor (clusterID: string, store: SQLiteStore, runIndex: RunIndex)
      ensures this.clusterID == clusterID && this.store == store && this.runIndex == runIndex
    {
      this.clusterID, this.store, this.runIndex := clusterID, store, runIndex;
    }

    ghost function State(): World
      reads store, runIndex
    {
      World(store.tables, runIndex.index)
    }

    method OnAdd(job: Job, initial: bool, now: int, pod: Option<Ended>, faults: Faults)
      modifies store, runIndex
      ensures State() == Added(old(State()), clusterID, job, initial, now, pod, faults)
    {
      if job.owner.None? {
        return;
      }
      if initial && JobIsDone(job) {
        BackfillRun(job, now, pod, faults);
        return;
      }
      var landed := store.Exec(UpsertOf(clusterID, job, now, Running), faults.upsert);
      runIndex.Set(job.name, job.uid);
    }

    method BackfillStatus(job: Job) returns (status: Status)
      ensures status == StatusOf(job)
    {
      status := Failed;
      for i := 0 to |job.conditions|
        invariant status == Failed && Condition(JobComplete, true) !in job.conditions[..i]
      {
        if job.conditions[i] == Condition(JobComplete, true) {
          status := Succeeded;
          break;
        }
      }
    }

    method BackfillRun(job: Job, now: int, pod: Option<Ended>, faults: Faults)
      requires job.owner.Some?
      modifies store
      ensures store.tables == Backfilled(old(store.tables), clusterID, job, now, pod, faults)
    {
      ghost var was := store.tables;
      if !faults.read && job.uid in store.tables.runs && store.tables.runs[job.uid].status == Succeeded {
        return;
      }
      var status := BackfillStatus(job);
      var landed := store.Exec(UpsertOf(clusterID, job, now, status), faults.upsert);
      if !landed {
        return;
      }
      ghost var row := UpsertedRun(was, job.uid, CronJobId(clusterID, job), job.name, job.manual, StartOf(job, now),
        status);
      assert store.tables == WithRow(was, job.uid, row);
      var finishedAt := job.completionTime;
      if finishedAt.Some? {
        RowUpdate(was, job.uid, row, status, finishedAt, 0, faults.finish);
        var _ := store.Exec(UpdateJobRunStatus(job.uid, status, finishedAt, 0, 0), faults.finish);
        row := Finished(row, status, finishedAt, 0, faults.finish);
      }
      if pod.None? {
        return;
      }
      if finishedAt.None? {
        finishedAt := pod.value.finished;
      }
      RowUpdate(was, job.uid, row, status, finishedAt, pod.value.exitCode, faults.exit);
      var _ := store.Exec(UpdateJobRunStatus(job.uid, status, finishedAt, pod.value.exitCode, 0), faults.exit);
    }

    method OnDelete(job: Job, now: int, faults: Faults)
      modifies store, runIndex
      ensures State() == Deleted(old(State()), job, now, faults)
    {
      if faults.read || job.uid !in store.tables.runs || store.tables.runs[job.uid].status != Running {
        runIndex.Delete(job.name);
        return;
      }
      var _ := store.Exec(MarkRunFailed(job.uid, now), faults.upsert);
      runIndex.Delete(job.name);
    }
  }

  predicate RunningAs(t: Tables, id: string, jobName: string) {
    id in t.runs && t.runs[id].status == Running && t.runs[id].podName == jobName
  }

  // A result of the scan over the running rows; any of several with the same name may come first.
  predicate Scanned(t: Tables, jobName: string, run: string) {
    RunningAs(t, run, jobName) || (run == "" && forall id :: id in t.runs ==> !RunningAs(t, id, jobName))
  }

  // A result of the lookup: the index first, the scan otherwise.
  predicate Found(w: World, jobName: string, run: string) {
    if jobName in w.index && w.index[jobName] != "" then run == w.index[jobName] else Scanned(w.t, jobName, run)
  }

  class PodHandler {
    const store: SQLiteStore
    const runIndex: RunIndex

    constructor (store: SQLiteStore, runIndex: RunIndex)
      ensures this.store == store && this.runIndex == runIndex
    {
      this.store, this.runIndex := store, runIndex;
    }

    ghost function State(): World
      reads store, runIndex
    {
      World(store.tables, runIndex.index)
    }

    method FindRunID(jobName: string, fault: bool) returns (run: string)
      ensures !fault ==> Found(State(), jobName, run)
      ensures fault && !(jobName in runIndex.index && runIndex.index[jobName] != "") ==> run == ""
    {
      run := runIndex.Get(jobName);
      if run != "" || fault {
        return;
      }
      var left := store.tables.runs.Keys;
      while left != {}
        invariant run == "" && left <= store.tables.runs.Keys
        invariant forall id :: id in store.tables.runs && id !in left ==> !RunningAs(store.tables, id, jobName)
        decreases |left|
      {
        var id :| id in left;
        if RunningAs(store.tables, id, jobName) {
          return id;
        }
        left := left - {id};
      }
    }

    method OnUpdate(jobName: string, phase: Phase, finished: int, exitCode: int, retries: int,
                    fault: bool) returns (ghost run: string)
      modifies store, runIndex
      ensures Found(old(State()), jobName, run)
      ensures State() == PodSeen(old(State()), jobName, phase, run, finished, exitCode, retries, fault)
    {
      var runID := FindRunID(jobName, false);
      run := runID;
      if runID == "" {
        return;
      }
      match phase
      case PodRunning =>
      case PodOther =>
      case PodSucceeded =>
        var _ := store.Exec(UpdateJobRunStatus(runID, Succeeded, Some(finished), exitCode, retries), fault);
        runIndex.Delete(jobName);
      case PodFailed =>
        var _ := store.Exec(UpdateJobRunStatus(runID, Failed, Some(finished), exitCode, retries), fault);
        runIndex.Delete(jobName);
    }
  }

  // --- The index agrees with the scan -----------------------------------------------------------

  ghost predicate IndexSound(w: World) {
    forall name :: name in w.index ==> RunningAs(w.t, w.index[name], name)
  }

  // No two running rows share a Job name.
  ghost predicate UniqueNames(t: Tables) {
    forall a, b, name :: RunningAs(t, a, name) && RunningAs(t, b, name) ==> a == b
  }

  // Ids are Kubernetes UIDs.
  ghost predicate NoEmptyId(t: Tables) { "" !in t.runs }

  datatype Event =
    | JobAdded(job: Job, initial: bool, now: int, pod: Option<Ended>)
    | JobDeleted(job: Job, now: int)
    | Triggered(id: string, cronJob: string, podName: string, now: int)
    | PodChanged(jobName: string, phase: Phase, run: string, finished: int, exitCode: int, retries: int)

  function Step(w: World, cluster: string, e: Event): World {
    match e
    case JobAdded(job, initial, now, pod) => Added(w, cluster, job, initial, now, pod, NO_FAULTS)
    case JobDeleted(job, now) => Deleted(w, job, now, NO_FAULTS)
    case Triggered(id, cronJob, podName, now) =>
         w.(t := After(w.t, Write(UpsertJobRun(id, cronJob, podName, true, now, Running), false)))
    case PodChanged(jobName, phase, run, finished, exitCode, retries) =>
         PodSeen(w, jobName, phase, run, finished, exitCode, retries, false)
  }

  predicate SameName(t: Tables, id: string, name: string) {
    id in t.runs ==> t.runs[id].podName == name
  }

  // What the cluster and the store guarantee about an event: a UID has one name, an unfinished Job's
  // CronJob is on record, and the looked-up run is what the lookup gives.
  ghost predicate Admissible(w: World, cluster: string, e: Event) {
    match e
    case JobAdded(job, initial, now, pod) =>
      && job.uid != "" && SameName(w.t, job.uid, job.name)
      && (job.owner.Some? && !(initial && JobIsDone(job)) ==> CronJobId(cluster, job) in w.t.cronJobs)
    case JobDeleted(job, now) => SameName(w.t, job.uid, job.name)
    case Triggered(id, cronJob, podName, now) => id != "" && SameName(w.t, id, podName)
    case PodChanged(jobName, phase, run, finished, exitCode, retries) => Found(w, jobName, run)
  }

  // The initial list shows a Job before the index knows it.
  predicate FirstSight(w: World, e: Event) {
    e.JobAdded? && e.initial ==> e.job.uid !in w.index.Values
  }

  lemma AddedKeepsIndex(w: World, cluster: string, e: Event)
    requires e.JobAdded? && IndexSound(w) && Admissible(w, cluster, e) && FirstSight(w, e)
    ensures IndexSound(Step(w, cluster, e))
  {
    var v := Step(w, cluster, e);
    forall name | name in v.index
      ensures RunningAs(v.t, v.index[name], name)
    {
      if v.index[name] != e.job.uid {
        assert name in w.index && v.index[name] == w.index[name];
      } else if name in w.index && w.index[name] == e.job.uid {
        assert name == e.job.name;
        assert e.job.uid in w.index.Values;
      }
    }
  }

  lemma RemovedKeepsIndex(w: World, v: World, jobName: string, gone: string)
    requires IndexSound(w) && v.index == w.index - {jobName} && SameName(w.t, gone, jobName)
    requires forall id :: id in w.t.runs && id != gone ==> id in v.t.runs && v.t.runs[id] == w.t.runs[id]
    ensures IndexSound(v)
  {
  }

  lemma StepKeepsIndex(w: World, cluster: string, e: Event)
    requires IndexSound(w) && NoEmptyId(w.t) && UniqueNames(w.t) && Admissible(w, cluster, e) && FirstSight(w, e)
    ensures IndexSound(Step(w, cluster, e)) && NoEmptyId(Step(w, cluster, e).t)
  {
    match e
    case JobAdded(job, initial, now, pod) => AddedKeepsIndex(w, cluster, e);
    case JobDeleted(job, now) => RemovedKeepsIndex(w, Step(w, cluster, e), job.name, job.uid);
    case Triggered(id, cronJob, podName, now) =>
    case PodChanged(jobName, phase, run, finished, exitCode, retries) =>
      if run != "" && (phase == PodSucceeded || phase == PodFailed) {
        RemovedKeepsIndex(w, Step(w, cluster, e), jobName, run);
      }
  }

  predicate AddsJob(e: Event, id: string) { e.JobAdded? && e.job.uid == id }

  // A run of the handlers: worlds, and the events between them.  A Job in the initial list has not
  // been seen before.
  ghost predicate History(cluster: string, worlds: seq<World>, events: seq<Event>) {
    && |worlds| == |events| + 1
    && worlds[0].index == map[] && NoEmptyId(worlds[0].t)
    && (forall i :: 0 <= i < |events| ==> Happens(cluster, worlds, events, i))
    && (forall i, j :: 0 <= i < j < |events| && events[j].JobAdded? && events[j].initial ==>
       !AddsJob(events[i], events[j].job.uid))
    && (forall w :: w in worlds ==> UniqueNames(w.t))
  }

  ghost predicate Happens(cluster: string, worlds: seq<World>, events: seq<Event>, i: nat)
    requires i < |events| && |worlds| == |events| + 1
  {
    Admissible(worlds[i], cluster, events[i]) && worlds[i + 1] == Step(worlds[i], cluster, events[i])
  }

  lemma NewInIndex(w: World, cluster: string, e: Event, id: string)
    requires id in Step(w, cluster, e).index.Values
    ensures id in w.index.Values || AddsJob(e, id)
  {
    var v := Step(w, cluster, e);
    var name :| name in v.index && v.index[name] == id;
    assert name in w.index && w.index[name] == id ==> id in w.index.Values;
  }

  lemma {:induction false} IndexedWasAdded(cluster: string, worlds: seq<World>, events: seq<Event>, i: nat,
                                           id: string) returns (j: nat)
    requires History(cluster, worlds, events) && i < |worlds| && id in worlds[i].index.Values
    ensures j < i && AddsJob(events[j], id)
  {
    assert i > 0;
    assert Happens(cluster, worlds, events, i - 1);
    NewInIndex(worlds[i - 1], cluster, events[i - 1], id);
    if AddsJob(events[i - 1], id) {
      j := i - 1;
    } else {
      j := IndexedWasAdded(cluster, worlds, events, i - 1, id);
    }
  }

  lemma InitialIsFirstSight(cluster: string, worlds: seq<World>, events: seq<Event>, i: nat)
    requires History(cluster, worlds, events) && i < |events|
    ensures FirstSight(worlds[i], events[i])
  {
    if events[i].JobAdded? && events[i].initial && events[i].job.uid in worlds[i].index.Values {
      var j := IndexedWasAdded(cluster, worlds, events, i, events[i].job.uid);
      assert false;
    }
  }

  lemma {:induction false} IndexAlwaysSound(cluster: string, worlds: seq<World>, events: seq<Event>, i: nat)
    requires History(cluster, worlds, events) && i < |worlds|
    ensures IndexSound(worlds[i]) && NoEmptyId(worlds[i].t)
  {
    if i > 0 {
      IndexAlwaysSound(cluster, worlds, events, i - 1);
      assert Happens(cluster, worlds, events, i - 1);
      assert worlds[i - 1] in worlds;
      InitialIsFirstSight(cluster, worlds, events, i - 1);
      StepKeepsIndex(worlds[i - 1], cluster, events[i - 1]);
    }
  }

  /** In every such run, every index entry names a running row of that Job, so a lookup gives what the
      scan of the database gives, and there is only one such answer. */
  lemma LookupAgreesWithScan(cluster: string, worlds: seq<World>, events: seq<Event>, i: nat, jobName: string,
                             run: string, scanned: string)
    requires History(cluster, worlds, events) && i < |worlds|
    requires Found(worlds[i], jobName, run) && Scanned(worlds[i].t, jobName, scanned)
    ensures run == scanned
  {
    IndexAlwaysSound(cluster, worlds, events, i);
    assert worlds[i] in worlds;
  }

  // --- When an event breaks the index -----------------------------------------------------------

  lemma UpsertedRunning(w: World, cluster: string, job: Job, now: int, pod: Option<Ended>, faults: Faults)
    requires job.owner.Some?
    ensures var v := Added(w, cluster, job, false, now, pod, faults);
            && job.name in v.index && v.index[job.name] == job.uid
            && (RunningAs(v.t, job.uid, job.name) <==>
                (!faults.upsert && CronJobId(cluster, job) in w.t.cronJobs) || RunningAs(w.t, job.uid, job.name))
  {
  }

  /** A new Job keeps the index right if and only if its run can be recorded, that is, the statement
      does not fail and the CronJob is on record, or it is running under that name already. */
  lemma AddKeepsIndexIff(w: World, cluster: string, job: Job, now: int, pod: Option<Ended>, faults: Faults)
    requires IndexSound(w) && job.owner.Some? && SameName(w.t, job.uid, job.name)
    ensures IndexSound(Added(w, cluster, job, false, now, pod, faults)) <==>
            (!faults.upsert && CronJobId(cluster, job) in w.t.cronJobs) || RunningAs(w.t, job.uid, job.name)
  {
    UpsertedRunning(w, cluster, job, now, pod, faults);
    var v := Added(w, cluster, job, false, now, pod, faults);
    if RunningAs(v.t, job.uid, job.name) {
      forall name | name in v.index
        ensures RunningAs(v.t, v.index[name], name)
      {
        if name != job.name {
          assert name in w.index && RunningAs(w.t, w.index[name], name);
        }
      }
    }
  }

  /** The backfill of a finished Job keeps the index right if and only if the index does not know the
      run, or the backfill cannot be recorded. */
  lemma BackfillKeepsIndexIff(w: World, cluster: string, job: Job, now: int, pod: Option<Ended>, faults: Faults)
    requires IndexSound(w) && job.owner.Some? && JobIsDone(job)
    ensures IndexSound(Added(w, cluster, job, true, now, pod, faults)) <==>
            job.uid !in w.index.Values || faults.upsert || CronJobId(cluster, job) !in w.t.cronJobs
  {
    var v := Added(w, cluster, job, true, now, pod, faults);
    if job.uid in w.index.Values {
      var name :| name in w.index && w.index[name] == job.uid;
      assert RunningAs(w.t, job.uid, name);
      if !faults.upsert && CronJobId(cluster, job) in w.t.cronJobs {
        assert !RunningAs(v.t, v.index[name], name);
      }
    }
  }

  /** A retention pass keeps the index right if and only if no indexed run started before its cutoff. */
  lemma RetentionKeepsIndexIff(w: World, before: int)
    requires IndexSound(w)
    ensures IndexSound(w.(t := After(w.t, Write(DeleteOldData(before), false)))) <==>
            forall name :: name in w.index ==> w.t.runs[w.index[name]].started >= before
  {
    var v := w.(t := After(w.t, Write(DeleteOldData(before), false)));
    forall name | name in w.index
      ensures RunningAs(v.t, v.index[name], name) <==> w.t.runs[w.index[name]].started >= before
    {
      assert RunningAs(w.t, w.index[name], name);
    }
  }

  // The lookup for a Job's pod gives a run, and not the Job's own one.
  predicate FindsAnother(w: World, jobName: string, own: string, run: string) {
    Found(w, jobName, run) && run != "" && run != own
  }

  ghost predicate CanFindAnother(w: World, jobName: string, own: string) {
    exists run :: FindsAnother(w, jobName, own, run)
  }

  ghost predicate AnotherRuns(t: Tables, jobName: string, own: string) {
    exists id :: id != own && RunningAs(t, id, jobName)
  }

  /** In any world, a pod event of a Job can meet a run that is not the Job's own if and only if another
      run is indexed under the name, or none is and another row is running under it, of whatever
      cluster. */
  lemma FindsAnotherIff(w: World, jobName: string, own: string)
    requires NoEmptyId(w.t)
    ensures CanFindAnother(w, jobName, own) <==>
            if jobName in w.index &&
              w.index[jobName] != "" then w.index[jobName] != own else AnotherRuns(w.t, jobName, own)
  {
    if jobName in w.index && w.index[jobName] != "" {
      assert w.index[jobName] != own ==> FindsAnother(w, jobName, own, w.index[jobName]);
    } else if AnotherRuns(w.t, jobName, own) {
      var id :| id != own && RunningAs(w.t, id, jobName);
      assert FindsAnother(w, jobName, own, id);
    }
  }

  /** What the end of a pod leaves in the row of its run: the status of the phase, the end time, the exit
      code and the number of restarts, each in its own column, and every other column as it was. */
  lemma EndIsRecorded(w: World, jobName: string, phase: Phase, run: string, finished: int, exitCode: int, retries: int)
    requires (phase == PodSucceeded || phase == PodFailed) && run != "" && run in w.t.runs
    ensures var u := PodSeen(w, jobName, phase, run, finished, exitCode, retries, false);
            run in u.t.runs &&
            var was, now := w.t.runs[run], u.t.runs[run];
            && now.status == (if phase == PodSucceeded then Succeeded else Failed)
            && now.finished == Some(finished) && now.exitCode == Some(exitCode) && now.retries == retries
            && now.cronJob == was.cronJob && now.podName == was.podName && now.manual == was.manual
            && now.started == was.started && now.logSize == was.logSize
  {
  }

  /** Any other phase, a run that was not found, and a failing statement leave every row as it was. */
  lemma NothingEnds(w: World, jobName: string, phase: Phase, run: string, finished: int, exitCode: int, retries: int,
                    fault: bool)
    requires phase == PodRunning || phase == PodOther || run == "" || fault
    ensures PodSeen(w, jobName, phase, run, finished, exitCode, retries, fault).t == w.t
  {
  }

  /** A final event ends the run that the lookup gave, and touches no other. */
  lemma OnlyFoundRunEnds(w: World, jobName: string, phase: Phase, run: string, finished: int, exitCode: int,
                         retries: int)
    requires phase == PodSucceeded || phase == PodFailed
    ensures var u := PodSeen(w, jobName, phase, run, finished, exitCode, retries, false);
            && u.t.runs.Keys == w.t.runs.Keys &&
               (forall id :: id in w.t.runs && id != run ==> u.t.runs[id] == w.t.runs[id])
            && (run != "" && run in w.t.runs ==>
               u.t.runs[run].status == (if phase == PodFailed then Failed else Succeeded))
            && (run != "" ==> jobName !in u.index)
  {
  }

  /** The first final event of an indexed Job drops its entry.  A second one for the same pod can end
      another run if and only if another row is running under the name. */
  lemma SecondEndHitsAnotherIff(w: World, jobName: string, own: string, phase: Phase, finished: int, exitCode: int,
                                retries: int)
    requires NoEmptyId(w.t) && own != "" && Found(w, jobName, own) && (phase == PodSucceeded || phase == PodFailed)
    ensures CanFindAnother(PodSeen(w, jobName, phase, own, finished, exitCode, retries, false), jobName, own) <==>
            AnotherRuns(w.t, jobName, own)
  {
    var u := PodSeen(w, jobName, phase, own, finished, exitCode, retries, false);
    OnlyFoundRunEnds(w, jobName, phase, own, finished, exitCode, retries);
    FindsAnotherIff(u, jobName, own);
    forall id | id != own
      ensures RunningAs(u.t, id, jobName) <==> RunningAs(w.t, id, jobName)
    {
    }
  }

  /** With one Job running and indexed, another Job is added.  The end of the first one's pod is
      recorded on the first one's run if and only if the other has another name, or is the same Job. */
  lemma RightRunEndsIff(w: World, cluster: string, first: Job, second: Job, now: int, run: string, finished: int,
                        exitCode: int)
    requires first.name in w.index && w.index[first.name] == first.uid != "" && RunningAs(w.t, first.uid, first.name)
    requires second.owner.Some? && second.uid != "" && CronJobId(cluster, second) in w.t.cronJobs
    requires Found(Step(w, cluster, JobAdded(second, false, now, None)), first.name, run)
    ensures var v := Step(w, cluster, JobAdded(second, false, now, None));
            var u := Step(v, cluster, PodChanged(first.name, PodSucceeded, run, finished, exitCode, 0));
            first.uid in u.t.runs &&
              (u.t.runs[first.uid].status == Succeeded <==> second.name != first.name || second.uid == first.uid)
  {
    var v := Step(w, cluster, JobAdded(second, false, now, None));
    UpsertedRunning(w, cluster, second, now, None, NO_FAULTS);
    assert v.index[first.name] == if second.name == first.name then second.uid else first.uid;
    assert first.uid in v.t.runs && v.t.runs[first.uid].status == Running;
  }

  /** Without the parent row the run is not recorded, yet the index takes it: from then on the lookup
      finds a run that does not exist. */
  lemma MissingParentLeavesStaleEntry(w: World, cluster: string, job: Job, now: int)
    requires job.owner.Some? && !JobIsDone(job) && job.uid != "" && job.uid !in w.t.runs && NoEmptyId(w.t)
    requires CronJobId(cluster, job) !in w.t.cronJobs && forall id :: id in w.t.runs ==> !RunningAs(w.t, id, job.name)
    ensures var v := Step(w, cluster, JobAdded(job, false, now, None));
            Found(v, job.name, job.uid) && !Scanned(v.t, job.name, job.uid) && job.uid !in v.t.runs
  {
  }

  /** Names are unique within a namespace only.  Of two running Jobs of the same name in two
      namespaces, the end of the first one's pod is recorded against the second one's run. */
  lemma SameNameElsewhere(w: World, cluster: string, first: Job, second: Job, now: int, finished: int, exitCode: int)
    requires first.owner.Some? && second.owner.Some? && !JobIsDone(first) && !JobIsDone(second)
    requires first.name == second.name && first.namespace != second.namespace && first.uid != second.uid &&
             second.uid != ""
    requires CronJobId(cluster, first) in w.t.cronJobs && CronJobId(cluster, second) in w.t.cronJobs
    ensures var v := Step(Step(w, cluster, JobAdded(first, false, now, None)), cluster,
            JobAdded(second, false, now, None));
            && Found(v, first.name, second.uid)
            && RunningAs(v.t, first.uid, first.name) && RunningAs(v.t, second.uid, second.name)
            && var u := Step(v, cluster, PodChanged(first.name, PodSucceeded, second.uid, finished, exitCode, 0));
               u.t.runs[first.uid].status == Running && u.t.runs[second.uid].status == Succeeded
  {
  }

  // --- Recovery at startup ----------------------------------------------------------------------

  function MarkedFailed(row: Run, now: int): Run {
    row.(status := Failed, finished := Some(now), exitCode := Some(-1))
  }

  // Every running row is marked as failed, unless its statement fails.
  function Recovered(t: Tables, clock: string -> int, faults: set<string>): Tables {
    t.(runs := map id | id in t.runs ::
         if t.runs[id].status == Running && id !in faults then MarkedFailed(t.runs[id], clock(id)) else t.runs[id])
  }

  method MarkStaleRuns(store: SQLiteStore, clock: string -> int, faults: set<string>)
    modifies store
    ensures store.tables == Recovered(old(store.tables), clock, faults)
  {
    ghost var t := store.tables;
    var left := set id | id in store.tables.runs && store.tables.runs[id].status == Running;
    while left != {}
      invariant forall id :: id in left ==> id in t.runs && t.runs[id].status == Running
      invariant store.tables == Recovered(t, clock, faults + left)
      decreases |left|
    {
      var id :| id in left;
      MarkOneMore(t, clock, faults, left, id);
      var _ := store.Exec(MarkRunFailed(id, clock(id)), id in faults);
      left := left - {id};
    }
    assert faults + {} == faults;
  }

  lemma MarkOneMore(t: Tables, clock: string -> int, faults: set<string>, left: set<string>, id: string)
    requires id in left && id in t.runs && t.runs[id].status == Running
    ensures Recovered(t, clock, faults + (left - {id})) ==
            After(Recovered(t, clock, faults + left), Write(MarkRunFailed(id, clock(id)), id in faults))
  {
    assert Recovered(t, clock, faults + (left - {id})).runs ==
           After(Recovered(t, clock, faults + left), Write(MarkRunFailed(id, clock(id)), id in faults)).runs;
  }

  // The initial list of Jobs, one after the other.
  function Listed(w: World, cluster: string, jobs: seq<Job>, now: int, pods: Job -> Option<Ended>): World
    decreases |jobs|
  {
    if jobs == [] then w
    else Listed(Added(w, cluster, jobs[0], true, now, pods(jobs[0]), NO_FAULTS), cluster, jobs[1..], now, pods)
  }

  function RowOf(t: Tables, id: string): Option<Run> {
    if id in t.runs then Some(t.runs[id]) else None
  }

  predicate Owned(t: Tables, cluster: string, job: Job) {
    job.owner.Some? && CronJobId(cluster, job) in t.cronJobs
  }

  predicate SameMark(was: Run, now: Run) {
    now.finished == was.finished && now.exitCode == was.exitCode && now.logSize == was.logSize
  }

  // What becomes of a row when its Job is in the initial list.
  predicate Outcome(was: Option<Run>, now: Option<Run>, owned: bool, job: Job) {
    if !owned then now == was
    else if !JobIsDone(job) then now.Some? && now.value.status == Running &&
      (was.Some? ==> SameMark(was.value, now.value))
    else if was.Some? && was.value.status == Succeeded then now == was
    else now.Some? && now.value.status == StatusOf(job)
  }

  lemma AddedOthers(w: World, cluster: string, job: Job, now: int, pod: Option<Ended>)
    ensures var v := Added(w, cluster, job, true, now, pod, NO_FAULTS);
            v.t.cronJobs == w.t.cronJobs && forall id :: id != job.uid ==> RowOf(v.t, id) == RowOf(w.t, id)
  {
  }

  lemma BackfilledOutcome(t: Tables, cluster: string, job: Job, now: int, pod: Option<Ended>)
    requires job.owner.Some? && JobIsDone(job)
    ensures Outcome(RowOf(t, job.uid), RowOf(Backfilled(t, cluster, job, now, pod, NO_FAULTS), job.uid),
            Owned(t, cluster, job), job)
  {
  }

  lemma AddedOutcome(w: World, cluster: string, job: Job, now: int, pod: Option<Ended>)
    ensures Outcome(RowOf(w.t, job.uid), RowOf(Added(w, cluster, job, true, now, pod, NO_FAULTS).t, job.uid),
            Owned(w.t, cluster, job), job)
  {
    if job.owner.Some? && JobIsDone(job) {
      BackfilledOutcome(w.t, cluster, job, now, pod);
    }
  }

  ghost predicate DistinctJobs(jobs: seq<Job>) {
    forall i, j :: 0 <= i < j < |jobs| ==> jobs[i].uid != jobs[j].uid
  }

  lemma {:induction false} ListedOthers(w: World, cluster: string, jobs: seq<Job>, now: int,
                                        pods: Job -> Option<Ended>, id: string)
    requires forall job :: job in jobs ==> job.uid != id
    ensures RowOf(Listed(w, cluster, jobs, now, pods).t, id) == RowOf(w.t, id)
    decreases |jobs|
  {
    if jobs != [] {
      AddedOthers(w, cluster, jobs[0], now, pods(jobs[0]));
      ListedOthers(Added(w, cluster, jobs[0], true, now, pods(jobs[0]), NO_FAULTS), cluster, jobs[1..], now, pods, id);
    }
  }

  lemma {:induction false} ListedOutcome(w: World, cluster: string, jobs: seq<Job>, now: int,
                                         pods: Job -> Option<Ended>, k: nat)
    requires DistinctJobs(jobs) && k < |jobs|
    ensures Outcome(RowOf(w.t, jobs[k].uid), RowOf(Listed(w, cluster, jobs, now, pods).t, jobs[k].uid),
            Owned(w.t, cluster, jobs[k]), jobs[k])
    decreases |jobs|
  {
    var v := Added(w, cluster, jobs[0], true, now, pods(jobs[0]), NO_FAULTS);
    AddedOthers(w, cluster, jobs[0], now, pods(jobs[0]));
    if k == 0 {
      AddedOutcome(w, cluster, jobs[0], now, pods(jobs[0]));
      ListedOthers(v, cluster, jobs[1..], now, pods, jobs[0].uid);
    } else {
      ListedOutcome(v, cluster, jobs[1..], now, pods, k - 1);
    }
  }

  // The store after a restart: stale runs marked, then the initial list.
  function Restarted(t: Tables, cluster: string, jobs: seq<Job>, clock: string -> int, now: int,
                     pods: Job -> Option<Ended>): World {
    Listed(World(Recovered(t, clock, {}), map[]), cluster, jobs, now, pods)
  }

  // The order of a startup: stale runs first, then the Job handler with an empty index and the
  // initial list.
  method Startup(store: SQLiteStore, cluster: string, jobs: seq<Job>, clock: string -> int, now: int,
                 pods: Job -> Option<Ended>)
    returns (handler: JobHandler)
    modifies store
    ensures fresh(handler) && handler.store == store && fresh(handler.runIndex)
    ensures handler.State() == Restarted(old(store.tables), cluster, jobs, clock, now, pods)
  {
    MarkStaleRuns(store, clock, {});
    var runIndex := new RunIndex();
    handler := new JobHandler(cluster, store, runIndex);
    for i := 0 to |jobs|
      invariant fresh(handler) && handler.store == store && handler.runIndex == runIndex && handler.clusterID == cluster
      invariant Listed(handler.State(), cluster, jobs[i..], now, pods) ==
                Restarted(old(store.tables), cluster, jobs, clock, now, pods)
    {
      assert jobs[i..][1..] == jobs[i + 1..];
      handler.OnAdd(jobs[i], true, now, pods(jobs[i]), NO_FAULTS);
    }
  }

  // An unfinished Job of a CronJob on record.
  ghost predicate StillRunning(t: Tables, cluster: string, jobs: seq<Job>, id: string) {
    exists job :: job in jobs && job.uid == id && Owned(t, cluster, job) && !JobIsDone(job)
  }

  lemma NotListedNotRunning(t: Tables, cluster: string, jobs: seq<Job>, clock: string -> int, now: int,
                            pods: Job -> Option<Ended>, id: string)
    requires forall job :: job in jobs ==> job.uid != id
    ensures var row := RowOf(Restarted(t, cluster, jobs, clock, now, pods).t, id);
            row == RowOf(Recovered(t, clock, {}), id) && (row.Some? ==> row.value.status != Running)
  {
    ListedOthers(World(Recovered(t, clock, {}), map[]), cluster, jobs, now, pods, id);
  }

  /** From any stored state, a restart leaves as running exactly the unfinished Jobs of CronJobs on
      record; runs without a Job are never left running. */
  lemma RestartRecovery(t: Tables, cluster: string, jobs: seq<Job>, clock: string -> int, now: int,
                        pods: Job -> Option<Ended>, id: string)
    requires DistinctJobs(jobs)
    ensures var row := RowOf(Restarted(t, cluster, jobs, clock, now, pods).t, id);
            row.Some? && row.value.status == Running <==> StillRunning(t, cluster, jobs, id)
  {
    if k :| 0 <= k < |jobs| && jobs[k].uid == id {
      ListedOutcome(World(Recovered(t, clock, {}), map[]), cluster, jobs, now, pods, k);
      OneJob(jobs, k);
      assert jobs[k] in jobs;
    } else {
      NotListedNotRunning(t, cluster, jobs, clock, now, pods, id);
    }
  }

  lemma OneJob(jobs: seq<Job>, k: nat)
    requires DistinctJobs(jobs) && k < |jobs|
    ensures forall job :: job in jobs && job.uid == jobs[k].uid ==> job == jobs[k]
  {
  }

  /** A finished Job's run has the status its conditions give, except that a run already succeeded is
      not touched at all. */
  lemma RestartStatuses(t: Tables, cluster: string, jobs: seq<Job>, clock: string -> int, now: int,
                        pods: Job -> Option<Ended>, k: nat)
    requires DistinctJobs(jobs) && k < |jobs| && Owned(t, cluster, jobs[k]) && JobIsDone(jobs[k])
    ensures var id, u := jobs[k].uid, Restarted(t, cluster, jobs, clock, now, pods).t;
            && id in u.runs
            && if id in t.runs && t.runs[id].status == Succeeded then u.runs[id] == t.runs[id]
               else u.runs[id].status == if HasTrue(jobs[k].conditions, JobComplete) then Succeeded else Failed
  {
    ListedOutcome(World(Recovered(t, clock, {}), map[]), cluster, jobs, now, pods, k);
  }

  /** A run that goes on across a restart is running again, but keeps the end time and the exit code
      -1 of the mark until it really ends. */
  lemma RecoveredRunKeepsMark(t: Tables, cluster: string, jobs: seq<Job>, clock: string -> int, now: int,
                              pods: Job -> Option<Ended>, k: nat)
    requires DistinctJobs(jobs) && k < |jobs| && Owned(t, cluster, jobs[k]) && !JobIsDone(jobs[k])
    requires jobs[k].uid in t.runs && t.runs[jobs[k].uid].status == Running
    ensures var id := jobs[k].uid;
            var row := RowOf(Restarted(t, cluster, jobs, clock, now, pods).t, id);
            row.Some? && row.value.status == Running && row.value.exitCode == Some(-1) &&
              row.value.finished == Some(clock(id))
  {
    ListedOutcome(World(Recovered(t, clock, {}), map[]), cluster, jobs, now, pods, k);
  }

  /** A triggered Job has no owner, so a run of it that goes on across a restart is left as failed. */
  lemma TriggeredRunIsNotRecovered(t: Tables, cluster: string, jobs: seq<Job>, clock: string -> int, now: int,
                                   pods: Job -> Option<Ended>, k: nat)
    requires DistinctJobs(jobs) && k < |jobs| && jobs[k].owner.None? && !JobIsDone(jobs[k])
    requires jobs[k].uid in t.runs && t.runs[jobs[k].uid].status == Running
    ensures RowOf(Restarted(t, cluster, jobs, clock, now, pods).t, jobs[k].uid) ==
            Some(MarkedFailed(t.runs[jobs[k].uid], clock(jobs[k].uid)))
  {
    ListedOutcome(World(Recovered(t, clock, {}), map[]), cluster, jobs, now, pods, k);
  }

  // --- Several clusters -------------------------------------------------------------------------

  // One cluster and its initial list.
  datatype Listing = Listing(cluster: string, jobs: seq<Job>)

  // The clusters list their Jobs into one store, each with an index of its own.
  function FleetListed(t: Tables, lists: seq<Listing>, now: int, pods: Job -> Option<Ended>): Tables
    decreases |lists|
  {
    if lists == [] then t
    else FleetListed(Listed(World(t, map[]), lists[0].cluster, lists[0].jobs, now, pods).t, lists[1..], now, pods)
  }

  predicate Shows(l: Listing, id: string) {
    exists job :: job in l.jobs && job.uid == id
  }

  // A UID is shown once, and by one cluster.
  ghost predicate DistinctLists(lists: seq<Listing>) {
    && (forall k :: 0 <= k < |lists| ==> DistinctJobs(lists[k].jobs))
    && (forall k, l, id :: 0 <= k < l < |lists| && Shows(lists[k], id) ==> !Shows(lists[l], id))
  }

  ghost predicate RunningSomewhere(t: Tables, lists: seq<Listing>, id: string) {
    exists k :: 0 <= k < |lists| && StillRunning(t, lists[k].cluster, lists[k].jobs, id)
  }

  predicate IsRunning(t: Tables, id: string) {
    id in t.runs && t.runs[id].status == Running
  }

  lemma {:induction false} ListedKeepsCronJobs(w: World, cluster: string, jobs: seq<Job>, now: int,
                                               pods: Job -> Option<Ended>)
    ensures Listed(w, cluster, jobs, now, pods).t.cronJobs == w.t.cronJobs
    decreases |jobs|
  {
    if jobs != [] {
      AddedOthers(w, cluster, jobs[0], now, pods(jobs[0]));
      ListedKeepsCronJobs(Added(w, cluster, jobs[0], true, now, pods(jobs[0]), NO_FAULTS), cluster, jobs[1..], now,
        pods);
    }
  }

  // One list, seen from one run that is not running before it.
  lemma ListDecides(t: Tables, l: Listing, now: int, pods: Job -> Option<Ended>, id: string)
    requires DistinctJobs(l.jobs) && !IsRunning(t, id)
    ensures IsRunning(Listed(World(t, map[]), l.cluster, l.jobs, now, pods).t, id) <==>
            StillRunning(t, l.cluster, l.jobs, id)
  {
    var w := World(t, map[]);
    if k :| 0 <= k < |l.jobs| && l.jobs[k].uid == id {
      ListedOutcome(w, l.cluster, l.jobs, now, pods, k);
      OneJob(l.jobs, k);
      assert l.jobs[k] in l.jobs;
    } else {
      ListedOthers(w, l.cluster, l.jobs, now, pods, id);
    }
  }

  lemma {:induction false} FleetOthers(t: Tables, lists: seq<Listing>, now: int, pods: Job -> Option<Ended>, id: string)
    requires forall k :: 0 <= k < |lists| ==> !Shows(lists[k], id)
    ensures RowOf(FleetListed(t, lists, now, pods), id) == RowOf(t, id)
    decreases |lists|
  {
    if lists != [] {
      assert !Shows(lists[0], id);
      ListedOthers(World(t, map[]), lists[0].cluster, lists[0].jobs, now, pods, id);
      FleetOthers(Listed(World(t, map[]), lists[0].cluster, lists[0].jobs, now, pods).t, lists[1..], now, pods, id);
    }
  }

  lemma {:induction false} FleetDecides(t: Tables, lists: seq<Listing>, now: int, pods: Job -> Option<Ended>,
                                        id: string)
    requires DistinctLists(lists) && !IsRunning(t, id)
    ensures IsRunning(FleetListed(t, lists, now, pods), id) <==> RunningSomewhere(t, lists, id)
    decreases |lists|
  {
    if lists != [] {
      var l, rest := lists[0], lists[1..];
      var u := Listed(World(t, map[]), l.cluster, l.jobs, now, pods).t;
      ListDecides(t, l, now, pods, id);
      ListedKeepsCronJobs(World(t, map[]), l.cluster, l.jobs, now, pods);
      SomewhereSplits(t, u, lists, id);
      if Shows(l, id) {
        FleetOthers(u, rest, now, pods, id);
        NotShownNotRunning(t, rest, id);
      } else {
        ListedOthers(World(t, map[]), l.cluster, l.jobs, now, pods, id);
        FleetDecides(u, rest, now, pods, id);
      }
    }
  }

  lemma NotShownNotRunning(t: Tables, lists: seq<Listing>, id: string)
    requires forall k :: 0 <= k < |lists| ==> !Shows(lists[k], id)
    ensures !RunningSomewhere(t, lists, id)
  {
  }

  // Which CronJobs are on record decides, and nothing else in the store.
  lemma SomewhereSplits(t: Tables, u: Tables, lists: seq<Listing>, id: string)
    requires lists != [] && u.cronJobs == t.cronJobs
    ensures RunningSomewhere(t, lists, id) <==>
            StillRunning(t, lists[0].cluster, lists[0].jobs, id) || RunningSomewhere(u, lists[1..], id)
    ensures RunningSomewhere(t, lists[1..], id) <==> RunningSomewhere(u, lists[1..], id)
  {
    forall k | 0 <= k < |lists|
      ensures StillRunning(t, lists[k].cluster, lists[k].jobs, id) <==>
              StillRunning(u, lists[k].cluster, lists[k].jobs, id)
    {
      forall job
        ensures Owned(t, lists[k].cluster, job) <==> Owned(u, lists[k].cluster, job)
      {
      }
    }
    if RunningSomewhere(t, lists, id) {
      var k :| 0 <= k < |lists| && StillRunning(t, lists[k].cluster, lists[k].jobs, id);
      assert k > 0 ==> lists[1..][k - 1] == lists[k];
    }
    if RunningSomewhere(u, lists[1..], id) {
      var k :| 0 <= k < |lists| - 1 && StillRunning(u, lists[1..][k].cluster, lists[1..][k].jobs, id);
      assert lists[1..][k] == lists[k + 1];
    }
  }

  /** Recovery over all clusters of one store: from any stored state, a run is running after the
      restart iff some cluster shows its Job as unfinished and has the Job's CronJob on record. */
  lemma FleetRecovery(t: Tables, lists: seq<Listing>, clock: string -> int, now: int, pods: Job -> Option<Ended>,
                      id: string)
    requires DistinctLists(lists)
    ensures IsRunning(FleetListed(Recovered(t, clock, {}), lists, now, pods), id) <==> RunningSomewhere(t, lists, id)
  {
    FleetDecides(Recovered(t, clock, {}), lists, now, pods, id);
    if lists != [] {
      SomewhereSplits(t, Recovered(t, clock, {}), lists, id);
      SomewhereSplits(Recovered(t, clock, {}), t, lists, id);
    }
  }

  // --- What the Job handler records ---------------------------------------------------------------

  /** A Job is done when it has a completion time, or a true condition that says complete or failed. */
  lemma DoneIff(job: Job)
    ensures JobIsDone(job) <==>
            || job.completionTime.Some?
            || exists c :: c in job.conditions && c.isTrue && (c.kind == JobComplete || c.kind == JobFailed)
  {
  }

  /** A new Job of a CronJob on record becomes a running run: of the CronJob named after cluster,
      namespace and owner, under the Job's name, started when the Job says, or now.  A run that is known
      keeps its end time, exit code, restarts and log size; a new one has none. */
  lemma AddedRow(w: World, cluster: string, job: Job, initial: bool, now: int, pod: Option<Ended>, faults: Faults)
    requires job.owner.Some? && !(initial && JobIsDone(job)) && !faults.upsert
    requires cluster + "/" + job.namespace + "/" + job.owner.value in w.t.cronJobs
    ensures var v := Added(w, cluster, job, initial, now, pod, faults);
            job.uid in v.t.runs &&
            var row := v.t.runs[job.uid];
            && row.cronJob == cluster + "/" + job.namespace + "/" + job.owner.value
            && row.podName == job.name && row.manual == job.manual && row.status == Running
            && row.started == (if job.startTime.Some? then job.startTime.value else now)
            && (if job.uid in w.t.runs then SameMark(w.t.runs[job.uid], row) && row.retries == w.t.runs[job.uid].retries
                else row.finished == None && row.exitCode == None && row.logSize == 0 && row.retries == 0)
            && v.index == w.index[job.name := job.uid]
            && v.t == w.t.(runs := w.t.runs[job.uid := row])
  {
  }

  /** A trigger records a running run, started now by hand, of a CronJob on record; the index learns of it
      only from the Job's own event. */
  lemma TriggeredRow(w: World, cluster: string, id: string, cronJob: string, podName: string, now: int)
    ensures var v := Step(w, cluster, Triggered(id, cronJob, podName, now));
            && v.index == w.index
            && (cronJob !in w.t.cronJobs ==> v == w)
            && (cronJob in w.t.cronJobs ==>
               && id in v.t.runs && v.t == w.t.(runs := w.t.runs[id := v.t.runs[id]])
               && var row := v.t.runs[id];
               && row.cronJob == cronJob && row.podName == podName && row.manual
               && row.started == now && row.status == Running)
  {
  }

  /** A finished Job in the initial list becomes a run with the status of its conditions and the Job's
      times; the pod, if one is found, gives the exit code, and the end time where the Job has none. */
  lemma BackfilledColumns(w: World, cluster: string, job: Job, now: int, pod: Option<Ended>)
    requires job.owner.Some? && JobIsDone(job)
    requires cluster + "/" + job.namespace + "/" + job.owner.value in w.t.cronJobs
    requires job.uid in w.t.runs ==> w.t.runs[job.uid].status != Succeeded
    ensures var v := Added(w, cluster, job, true, now, pod, NO_FAULTS);
            job.uid in v.t.runs &&
            var row := v.t.runs[job.uid];
            && row.cronJob == cluster + "/" + job.namespace + "/" + job.owner.value
            && row.podName == job.name && row.manual == job.manual
            && row.status == (if Condition(JobComplete, true) in job.conditions then Succeeded else Failed)
            && row.started == (if job.startTime.Some? then job.startTime.value else now)
            && (job.completionTime.Some? ==> row.finished == job.completionTime)
            && (job.completionTime.None? && pod.Some? ==> row.finished == pod.value.finished)
            && (pod.Some? ==> row.exitCode == Some(pod.value.exitCode) && row.retries == 0)
            && (pod.None? && job.completionTime.Some? ==> row.exitCode == Some(0) && row.retries == 0)
            && (job.uid in w.t.runs && pod.None? && job.completionTime.None? ==>
                  row.finished == w.t.runs[job.uid].finished && row.exitCode == w.t.runs[job.uid].exitCode)
            && row.logSize == (if job.uid in w.t.runs then w.t.runs[job.uid].logSize else 0)
            && v.index == w.index && v.t == w.t.(runs := w.t.runs[job.uid := row])
  {
  }

  /** A Job without an owning CronJob, and a backfill of a run already succeeded, change nothing. */
  lemma AddedNothing(w: World, cluster: string, job: Job, initial: bool, now: int, pod: Option<Ended>, faults: Faults)
    requires job.owner.None? ||
             (initial && JobIsDone(job) && !faults.read && job.uid in w.t.runs && w.t.runs[job.uid].status == Succeeded)
    ensures Added(w, cluster, job, initial, now, pod, faults) == w
  {
  }

  /** A deleted Job leaves no run of its own running: one that was is failed, ended now with exit code
      -1, and keeps its other columns; any other run, and one that had ended, keeps its row; and the
      Job's index entry, and no other, is gone. */
  lemma DeletedEndsRun(w: World, job: Job, now: int)
    ensures var v := Deleted(w, job, now, NO_FAULTS);
            && v.t == w.t.(runs := v.t.runs) && v.t.runs.Keys == w.t.runs.Keys
            && (forall id :: id in w.t.runs && id != job.uid ==> v.t.runs[id] == w.t.runs[id])
            && (job.uid in w.t.runs ==>
                  var was, row := w.t.runs[job.uid], v.t.runs[job.uid];
                  && (was.status != Running ==> row == was)
                  && (was.status == Running ==>
                        && row.status == Failed && row.finished == Some(now) && row.exitCode == Some(-1)
                        && row == was.(status := row.status, finished := row.finished, exitCode := row.exitCode)))
            && job.name !in v.index
            && (forall name :: name != job.name ==>
                  (name in v.index <==> name in w.index) && (name in w.index ==> v.index[name] == w.index[name]))
  {
  }
}
