/** The SQLite store as a state machine: tables, the statements that change them, foreign keys with
    their cascades, soft deletion and retention. */
module Store {
  import opened Common

  datatype Status = Running | Succeeded | Failed

  datatype Cluster = Cluster(name: string, deletedAt: Option<int>)

  datatype CronJob = CronJob(cluster: string, namespace: string, name: string, spec: string, deletedAt: Option<int>)

  datatype Run = Run(cronJob: string, podName: string, manual: bool, started: int, status: Status,
                     finished: Option<int>, exitCode: Option<int>, retries: int, logSize: int)

  datatype LogLine = LogLine(run: string, text: string)

  // Log lines are kept in the order of their autoincremented ids.
  datatype Tables = Tables(clusters: map<string, Cluster>, cronJobs: map<string, CronJob>,
                           runs: map<string, Run>, lines: seq<LogLine>)

  const EMPTY := Tables(map[], map[], map[], [])

  // One statement, or one transaction, as the store issues it.  Times are instants.
  datatype Statement =
    | UpsertCluster(id: string, name: string)
    | MarkClustersDeletedExcept(keep: seq<string>, now: int)
    | UpsertCronJob(id: string, cluster: string, namespace: string, name: string, spec: string)
    | MarkCronJobDeleted(id: string, now: int)
    | UpsertJobRun(id: string, cronJob: string, podName: string, manual: bool, started: int, status: Status)
    | UpdateJobRunStatus(id: string, status: Status, finished: Option<int>, exitCode: int, retries: int)
    | MarkRunFailed(id: string, now: int)
    | AddLogSize(id: string, bytes: int)
    | BatchInsertLogLines(id: string, texts: seq<string>)
    | DeleteOldLogLines(before: int)
    | DeleteOldData(before: int)
    | PurgeDeletedCronJobs(before: int)

  // --- Log lines of one run -------------------------------------------------------------------

  function Own(l: LogLine, id: string): seq<string> {
    if l.run == id then [l.text] else []
  }

  function Of(lines: seq<LogLine>, id: string): seq<string> {
    if lines == [] then [] else Own(lines[0], id) + Of(lines[1..], id)
  }

  function Without(lines: seq<LogLine>, gone: set<string>): seq<LogLine> {
    if lines == [] then [] else (if lines[0].run in gone then [] else [lines[0]]) + Without(lines[1..], gone)
  }

  function Rows(id: string, texts: seq<string>): seq<LogLine> {
    seq(|texts|, i requires 0 <= i < |texts| => LogLine(id, texts[i]))
  }

  lemma {:induction false} OfConcat(a: seq<LogLine>, b: seq<LogLine>, id: string)
    ensures Of(a + b, id) == Of(a, id) + Of(b, id)
  {
    if a == [] {
      assert a + b == b;
    } else {
      var head := Own(a[0], id);
      OfConcat(a[1..], b, id);
      assert (a + b)[0] == a[0] && (a + b)[1..] == a[1..] + b;
      Regroup(head, Of(a[1..], id), Of(b, id));
    }
  }

  lemma {:induction false} OfRows(id: string, texts: seq<string>, other: string)
    ensures Of(Rows(id, texts), other) == if other == id then texts else []
  {
    if texts != [] {
      OfRows(id, texts[1..], other);
      assert Rows(id, texts)[1..] == Rows(id, texts[1..]);
    }
  }

  lemma {:induction false} OfWithout(lines: seq<LogLine>, gone: set<string>, id: string)
    ensures Of(Without(lines, gone), id) == if id in gone then [] else Of(lines, id)
  {
    if lines != [] {
      OfWithout(lines[1..], gone, id);
      var rest := Without(lines[1..], gone);
      assert Without(lines, gone) == if lines[0].run in gone then rest else [lines[0]] + rest;
      assert ([lines[0]] + rest)[1..] == rest;
    }
  }

  lemma {:induction false} WithoutMembers(lines: seq<LogLine>, gone: set<string>, l: LogLine)
    requires l in Without(lines, gone)
    ensures l in lines && l.run !in gone
  {
    if !(lines[0].run !in gone && l == lines[0]) {
      WithoutMembers(lines[1..], gone, l);
    }
  }

  lemma {:induction false} WithoutNone(lines: seq<LogLine>, gone: set<string>)
    requires forall l :: l in lines ==> l.run !in gone
    ensures Without(lines, gone) == lines
  {
    if lines != [] {
      WithoutNone(lines[1..], gone);
    }
  }

  // --- Effects --------------------------------------------------------------------------------

  // Deleting runs takes their log lines along.
  function WithoutRuns(t: Tables, gone: set<string>): Tables {
    t.(runs := map id | id in t.runs && id !in gone :: t.runs[id], lines := Without(t.lines, gone))
  }

  // Deleting CronJobs takes their runs along, and those their log lines.
  function WithoutCronJobs(t: Tables, gone: set<string>): Tables {
    var orphans := set id | id in t.runs && t.runs[id].cronJob in gone;
    WithoutRuns(t, orphans).(cronJobs := map id | id in t.cronJobs && id !in gone :: t.cronJobs[id])
  }

  function OldRuns(t: Tables, before: int): set<string> {
    set id | id in t.runs && t.runs[id].started < before
  }

  function Purgeable(t: Tables, before: int): set<string> {
    set id | id in t.cronJobs && t.cronJobs[id].deletedAt.Some? && t.cronJobs[id].deletedAt.value < before
             && forall run :: run in t.runs ==> t.runs[run].cronJob != id
  }

  function MarkIfLive(c: CronJob, now: int): CronJob {
    if c.deletedAt.None? then c.(deletedAt := Some(now)) else c
  }

  function UpsertedRun(t: Tables, id: string, cronJob: string, podName: string, manual: bool, started: int,
                       status: Status): Run
  {
    if id in t.runs
    then t.runs[id].(cronJob := cronJob, podName := podName, manual := manual, started := started, status := status)
    else Run(cronJob, podName, manual, started, status, None, None, 0, 0)
  }

  // The constraints of the schema: parents must exist, and a CronJob's name is unique.
  predicate Accepts(t: Tables, s: Statement) {
    match s
    case UpsertCronJob(id, cluster, namespace, name, _) =>
      id in t.cronJobs || (cluster in t.clusters && forall other :: other in t.cronJobs ==>
                             !(t.cronJobs[other].cluster == cluster && t.cronJobs[other].namespace == namespace &&
                               t.cronJobs[other].name == name))
    case UpsertJobRun(_, cronJob, _, _, _, _) => cronJob in t.cronJobs
    case BatchInsertLogLines(id, texts) => texts == [] || id in t.runs
    case _ => true
  }

  function Effect(t: Tables, s: Statement): Tables {
    match s
    case UpsertCluster(id, name) => t.(clusters := t.clusters[id := Cluster(name, None)])
    case MarkClustersDeletedExcept(keep, now) =>
      if keep == [] then t
      else t.(clusters := map id | id in t.clusters ::
                if id in keep || t.clusters[id].deletedAt.Some? then t.clusters[id]
                  else t.clusters[id].(deletedAt := Some(now)))
    case UpsertCronJob(id, cluster, namespace, name, spec) =>
      var row := if id in t.cronJobs then t.cronJobs[id].(spec := spec, deletedAt := None)
                    else CronJob(cluster, namespace, name, spec, None);
      t.(cronJobs := t.cronJobs[id := row])
    case MarkCronJobDeleted(id, now) =>
      if id in t.cronJobs then t.(cronJobs := t.cronJobs[id := MarkIfLive(t.cronJobs[id], now)]) else t
    case UpsertJobRun(id, cronJob, podName, manual, started, status) =>
      t.(runs := t.runs[id := UpsertedRun(t, id, cronJob, podName, manual, started, status)])
    case UpdateJobRunStatus(id, status, finished, exitCode, retries) =>
      if id !in t.runs then t
      else t.(runs := t.runs[id := t.runs[id].(status := status, finished := finished, exitCode := Some(exitCode),
                                               retries := retries)])
    case MarkRunFailed(id, now) =>
      if id !in t.runs then t
      else t.(runs := t.runs[id := t.runs[id].(status := Failed, finished := Some(now), exitCode := Some(-1))])
    case AddLogSize(id, bytes) =>
      if id in t.runs then t.(runs := t.runs[id := t.runs[id].(logSize := t.runs[id].logSize + bytes)]) else t
    case BatchInsertLogLines(id, texts) => t.(lines := t.lines + Rows(id, texts))
    case DeleteOldLogLines(before) => t.(lines := Without(t.lines, OldRuns(t, before)))
    case DeleteOldData(before) => WithoutRuns(t, OldRuns(t, before))
    case PurgeDeletedCronJobs(before) => WithoutCronJobs(t, Purgeable(t, before))
  }

  // A statement as issued; `fault` says that it fails for a reason outside the tables.
  datatype Write = Write(s: Statement, fault: bool)

  predicate Lands(t: Tables, w: Write) { !w.fault && Accepts(t, w.s) }

  // A statement that does not land leaves no trace.
  function After(t: Tables, w: Write): Tables {
    if Lands(t, w) then Effect(t, w.s) else t
  }

  function Replay(h: seq<Write>): Tables {
    if h == [] then EMPTY else After(Replay(h[..|h| - 1]), h[|h| - 1])
  }

  class SQLiteStore {
    var tables: Tables

    constructor ()
      ensures tables == EMPTY
    {
      tables := EMPTY;
    }

    /** Executes one statement. */
    method Exec(s: Statement, fault: bool) returns (ok: bool)
      requires !s.BatchInsertLogLines?
      modifies this
      ensures ok == Lands(old(tables), Write(s, fault))
      ensures tables == After(old(tables), Write(s, fault))
    {
      ok := !fault && Accepts(tables, s);
      if ok {
        tables := Effect(tables, s);
      }
    }

    /** Inserts a batch in one transaction, row by row; the insert of row `broken` fails, if there is
        such a row, and so does the commit when `commitFault` is set. */
    method BatchInsertLogLines(id: string, texts: seq<string>, broken: nat, commitFault: bool) returns (ok: bool)
      modifies this
      ensures ok == Lands(old(tables),
              Write(Statement.BatchInsertLogLines(id, texts), texts != [] && (broken < |texts| || commitFault)))
      ensures tables == After(old(tables),
              Write(Statement.BatchInsertLogLines(id, texts), texts != [] && (broken < |texts| || commitFault)))
    {
      if texts == [] {
        assert tables.lines + Rows(id, texts) == tables.lines;
        return true;
      }
      var staged := tables.lines;
      for i := 0 to |texts|
        invariant staged == tables.lines + Rows(id, texts[..i]) && tables == old(tables)
        invariant i <= broken && (i > 0 ==> id in tables.runs)
      {
        if i == broken || id !in tables.runs {
          return false;
        }
        staged := staged + [LogLine(id, texts[i])];
        assert Rows(id, texts[..i + 1]) == Rows(id, texts[..i]) + [LogLine(id, texts[i])];
      }
      assert texts[..|texts|] == texts;
      ok := !commitFault;
      if ok {
        tables := tables.(lines := staged);
      }
    }
  }

  // --- Referential integrity ------------------------------------------------------------------

  ghost predicate Integrity(t: Tables) {
    && (forall id :: id in t.cronJobs ==> t.cronJobs[id].cluster in t.clusters)
    && (forall id :: id in t.runs ==> t.runs[id].cronJob in t.cronJobs)
    && (forall l :: l in t.lines ==> l.run in t.runs)
  }

  lemma RowsMembers(id: string, texts: seq<string>)
    ensures forall l :: l in Rows(id, texts) ==> l.run == id
  {
  }

  lemma WithoutRunsIntegrity(t: Tables, gone: set<string>)
    requires Integrity(t)
    ensures Integrity(WithoutRuns(t, gone))
  {
    var u := WithoutRuns(t, gone);
    forall l | l in u.lines
      ensures l.run in u.runs
    {
      WithoutMembers(t.lines, gone, l);
    }
  }

  lemma WithoutCronJobsIntegrity(t: Tables, gone: set<string>)
    requires Integrity(t)
    ensures Integrity(WithoutCronJobs(t, gone))
  {
    var orphans := set id | id in t.runs && t.runs[id].cronJob in gone;
    WithoutRunsIntegrity(t, orphans);
  }

  lemma EffectIntegrity(t: Tables, s: Statement)
    requires Integrity(t) && Accepts(t, s)
    ensures Integrity(Effect(t, s))
  {
    match s
    case BatchInsertLogLines(id, texts) => RowsMembers(id, texts);
    case DeleteOldLogLines(before) =>
      forall l | l in Without(t.lines, OldRuns(t, before))
        ensures l.run in t.runs
      {
        WithoutMembers(t.lines, OldRuns(t, before), l);
      }
    case DeleteOldData(before) => WithoutRunsIntegrity(t, OldRuns(t, before));
    case PurgeDeletedCronJobs(before) => WithoutCronJobsIntegrity(t, Purgeable(t, before));
    case _ =>
  }

  /** Whatever was written, in whatever order and with whatever failures, every CronJob has its
      cluster, every run its CronJob and every log line its run. */
  lemma {:induction false} IntegrityAlways(h: seq<Write>)
    ensures Integrity(Replay(h))
  {
    if h != [] {
      var before, w := Replay(h[..|h| - 1]), h[|h| - 1];
      IntegrityAlways(h[..|h| - 1]);
      if Lands(before, w) {
        EffectIntegrity(before, w.s);
      }
    }
  }

  // --- Purge ----------------------------------------------------------------------------------

  /** The cascade of a purge never fires: it removes CronJobs that were deleted before the cutoff and
      have no run left, and neither a run, nor a log line, nor a live CronJob. */
  lemma PurgeIsSafe(t: Tables, before: int)
    requires Integrity(t)
    ensures var u := Effect(t, PurgeDeletedCronJobs(before));
            && u.clusters == t.clusters && u.runs == t.runs && u.lines == t.lines
            && (forall id :: id in u.cronJobs <==> id in t.cronJobs && id !in Purgeable(t, before))
            && (forall id :: id in u.cronJobs ==> u.cronJobs[id] == t.cronJobs[id])
            && (forall id :: id in t.cronJobs && t.cronJobs[id].deletedAt.None? ==> id in u.cronJobs)
  {
    var gone := Purgeable(t, before);
    var orphans := set id | id in t.runs && t.runs[id].cronJob in gone;
    assert orphans == {};
    WithoutNone(t.lines, orphans);
    assert WithoutRuns(t, orphans).runs == t.runs;
  }

  // --- Soft deletion --------------------------------------------------------------------------

  // The i-th write inserted the CronJob or brought it back.
  ghost predicate Revives(h: seq<Write>, i: nat, id: string)
    requires i < |h|
  {
    h[i].s.UpsertCronJob? && h[i].s.id == id && Lands(Replay(h[..i]), h[i])
  }

  ghost predicate Marks(h: seq<Write>, i: nat, id: string)
    requires i < |h|
  {
    h[i].s.MarkCronJobDeleted? && h[i].s.id == id && !h[i].fault
  }

  lemma PrefixSame(h: seq<Write>, id: string)
    requires h != []
    ensures forall i :: 0 <= i < |h| - 1 ==> (Revives(h[..|h| - 1], i, id) <==> Revives(h, i, id))
    ensures forall i :: 0 <= i < |h| - 1 ==> (Marks(h[..|h| - 1], i, id) <==> Marks(h, i, id))
  {
    forall i | 0 <= i < |h| - 1
      ensures Revives(h[..|h| - 1], i, id) <==> Revives(h, i, id)
    {
      assert h[..|h| - 1][..i] == h[..i];
    }
  }

  // One write, seen from one CronJob.
  lemma CronJobStep(t: Tables, w: Write, id: string)
    requires id in After(t, w).cronJobs
    ensures var c := After(t, w).cronJobs[id];
            if w.s.UpsertCronJob? && w.s.id == id && Lands(t, w) then c.deletedAt == None
            else id in t.cronJobs && c.deletedAt ==
                 if w.s.MarkCronJobDeleted? && w.s.id == id && !w.fault
                 then OrElse(t.cronJobs[id].deletedAt, Some(w.s.now))
                 else t.cronJobs[id].deletedAt
  {
  }

  /** deleted_at is the time of the first mark since the last revival: marking again never moves it,
      reviving clears it, and neither failures nor a purge and re-creation in between matter. */
  lemma {:induction false} DeletedAtIsFirstMark(h: seq<Write>, id: string) returns (revival: nat, mark: nat)
    requires id in Replay(h).cronJobs
    ensures revival < |h| && Revives(h, revival, id) && forall k :: revival < k < |h| ==> !Revives(h, k, id)
    ensures Replay(h).cronJobs[id].deletedAt.None? ==> forall k :: revival < k < |h| ==> !Marks(h, k, id)
    ensures Replay(h).cronJobs[id].deletedAt.Some? ==>
              && revival < mark < |h| && Marks(h, mark, id) && h[mark].s.now == Replay(h).cronJobs[id].deletedAt.value
              && forall k :: revival < k < mark ==> !Marks(h, k, id)
  {
    var last := |h| - 1;
    var t, w := Replay(h[..last]), h[last];
    CronJobStep(t, w, id);
    if Revives(h, last, id) {
      revival, mark := last, last;
    } else {
      revival, mark := DeletedAtIsFirstMark(h[..last], id);
      PrefixSame(h, id);
      if t.cronJobs[id].deletedAt.None? {
        mark := last;
      }
    }
  }

  // --- The same for clusters ----------------------------------------------------------------------

  ghost predicate RevivesCluster(h: seq<Write>, i: nat, id: string)
    requires i < |h|
  {
    h[i].s.UpsertCluster? && h[i].s.id == id && !h[i].fault
  }

  // The i-th write marks all clusters but some, this one among the marked.
  ghost predicate MarksCluster(h: seq<Write>, i: nat, id: string)
    requires i < |h|
  {
    h[i].s.MarkClustersDeletedExcept? && h[i].s.keep != [] && id !in h[i].s.keep && !h[i].fault
  }

  lemma ClusterStep(t: Tables, w: Write, id: string)
    requires id in After(t, w).clusters
    ensures var c := After(t, w).clusters[id];
            if w.s.UpsertCluster? && w.s.id == id && !w.fault then c.deletedAt == None
            else id in t.clusters && c.deletedAt ==
                 if w.s.MarkClustersDeletedExcept? && w.s.keep != [] && id !in w.s.keep && !w.fault
                 then OrElse(t.clusters[id].deletedAt, Some(w.s.now))
                 else t.clusters[id].deletedAt
  {
  }

  /** A cluster is marked when it is missing from a non-empty list of those to keep, an empty list
      marks none, and deleted_at is the first such time since the cluster was last upserted. */
  lemma {:induction false} ClusterDeletedAtIsFirstMark(h: seq<Write>, id: string) returns (revival: nat, mark: nat)
    requires id in Replay(h).clusters
    ensures revival < |h| && RevivesCluster(h, revival, id) && forall k :: revival < k < |h| ==>
            !RevivesCluster(h, k, id)
    ensures Replay(h).clusters[id].deletedAt.None? ==> forall k :: revival < k < |h| ==> !MarksCluster(h, k, id)
    ensures Replay(h).clusters[id].deletedAt.Some? ==>
              && revival < mark < |h| && MarksCluster(h, mark, id) &&
                 h[mark].s.now == Replay(h).clusters[id].deletedAt.value
              && forall k :: revival < k < mark ==> !MarksCluster(h, k, id)
  {
    var last := |h| - 1;
    var t, w := Replay(h[..last]), h[last];
    ClusterStep(t, w, id);
    if RevivesCluster(h, last, id) {
      revival, mark := last, last;
    } else {
      revival, mark := ClusterDeletedAtIsFirstMark(h[..last], id);
      assert forall i :: 0 <= i < last ==> (RevivesCluster(h[..last], i, id) <==> RevivesCluster(h, i, id));
      assert forall i :: 0 <= i < last ==> (MarksCluster(h[..last], i, id) <==> MarksCluster(h, i, id));
      if t.clusters[id].deletedAt.None? {
        mark := last;
      }
    }
  }

  // --- The constraints, exactly -------------------------------------------------------------------

  // No two CronJobs share cluster, namespace and name.
  ghost predicate UniqueNames(t: Tables) {
    forall a, b :: a in t.cronJobs && b in t.cronJobs && a != b ==> !SameNames(t.cronJobs[a], t.cronJobs[b])
  }

  predicate SameNames(c: CronJob, d: CronJob) {
    c.cluster == d.cluster && c.namespace == d.namespace && c.name == d.name
  }

  lemma AcceptedKeepsNames(t: Tables, s: Statement)
    requires UniqueNames(t) && Accepts(t, s)
    ensures UniqueNames(Effect(t, s))
  {
    var u := Effect(t, s);
    forall a, b | a in u.cronJobs && b in u.cronJobs && a != b
      ensures !SameNames(u.cronJobs[a], u.cronJobs[b])
    {
      NamesStay(t, s, a);
      NamesStay(t, s, b);
    }
  }

  // The names of a CronJob that was there do not change; a new one has names that none has.
  lemma NamesStay(t: Tables, s: Statement, id: string)
    requires Accepts(t, s) && id in Effect(t, s).cronJobs
    ensures id in t.cronJobs ==> SameNames(t.cronJobs[id], Effect(t, s).cronJobs[id])
    ensures id !in t.cronJobs ==>
              && s.UpsertCronJob? && s.id == id
              && forall other :: other in t.cronJobs ==> !SameNames(t.cronJobs[other], Effect(t, s).cronJobs[id])
  {
  }

  lemma RefusedBreaks(t: Tables, s: Statement)
    requires !Accepts(t, s)
    ensures !(Integrity(Effect(t, s)) && UniqueNames(Effect(t, s)))
  {
    var u := Effect(t, s);
    match s
    case UpsertCronJob(id, cluster, namespace, name, _) =>
      assert id in u.cronJobs && u.cronJobs[id].cluster == cluster;
      if cluster in t.clusters {
        var other :| other in t.cronJobs && SameNames(t.cronJobs[other], u.cronJobs[id]);
        assert other in u.cronJobs && other != id;
      }
    case UpsertJobRun(id, cronJob, _, _, _, _) => assert id in u.runs && u.runs[id].cronJob == cronJob;
    case BatchInsertLogLines(id, texts) =>
      assert Rows(id, texts)[0] in Rows(id, texts);
      assert Rows(id, texts)[0] in u.lines && id !in u.runs;
  }

  /** A statement is refused exactly when its effect would leave a row without its parent, or two
      CronJobs of one name. */
  lemma AcceptedIff(t: Tables, s: Statement)
    requires Integrity(t) && UniqueNames(t)
    ensures Accepts(t, s) <==> Integrity(Effect(t, s)) && UniqueNames(Effect(t, s))
  {
    if Accepts(t, s) {
      EffectIntegrity(t, s);
      AcceptedKeepsNames(t, s);
    } else {
      RefusedBreaks(t, s);
    }
  }

  // --- Columns --------------------------------------------------------------------------------------

  ghost predicate OtherRunsSame(t: Tables, u: Tables, id: string) {
    && u == t.(runs := u.runs) && u.runs.Keys <= t.runs.Keys + {id} && t.runs.Keys <= u.runs.Keys
    && forall r :: r in t.runs && r != id ==> u.runs[r] == t.runs[r]
  }

  /** Recording a run sets the columns it names, keeps those of an earlier record that it does not name,
      the log size among them, and starts the others empty. */
  lemma UpsertedRunColumns(t: Tables, id: string, cronJob: string, podName: string, manual: bool, started: int,
                           status: Status)
    ensures var u := Effect(t, UpsertJobRun(id, cronJob, podName, manual, started, status));
            OtherRunsSame(t, u, id) && id in u.runs &&
            var row := u.runs[id];
            && row.cronJob == cronJob && row.podName == podName && row.manual == manual && row.started == started
            && row.status == status
            && (id in t.runs ==> row.finished == t.runs[id].finished && row.exitCode == t.runs[id].exitCode
                                 && row.retries == t.runs[id].retries && row.logSize == t.runs[id].logSize)
            && (id !in t.runs ==> row.finished == None && row.exitCode == None && row.retries == 0 && row.logSize == 0)
  {
  }

  /** The end of a run sets its status, end time, exit code and restarts; marking it as failed sets the
      first three, the exit code to -1; adding to its size adds just that; and none of them makes a row. */
  lemma UpdatedRunColumns(t: Tables, id: string, status: Status, finished: Option<int>, exitCode: int, retries: int,
                          now: int, bytes: int)
    ensures var u := Effect(t, UpdateJobRunStatus(id, status, finished, exitCode, retries));
            && OtherRunsSame(t, u, id) && (id !in t.runs ==> u == t)
            && (id in t.runs ==>
                  var was, row := t.runs[id], u.runs[id];
                  && row.status == status && row.finished == finished && row.exitCode == Some(exitCode)
                  && row.retries == retries && row.cronJob == was.cronJob && row.podName == was.podName
                  && row.manual == was.manual && row.started == was.started && row.logSize == was.logSize)
    ensures var u := Effect(t, MarkRunFailed(id, now));
            && OtherRunsSame(t, u, id) && (id !in t.runs ==> u == t)
            && (id in t.runs ==>
                  var was, row := t.runs[id], u.runs[id];
                  && row.status == Failed && row.finished == Some(now) && row.exitCode == Some(-1)
                  && row.retries == was.retries && row.cronJob == was.cronJob && row.podName == was.podName
                  && row.manual == was.manual && row.started == was.started && row.logSize == was.logSize)
    ensures var u := Effect(t, AddLogSize(id, bytes));
            && OtherRunsSame(t, u, id) && (id !in t.runs ==> u == t)
            && (id in t.runs ==>
                  var was, row := t.runs[id], u.runs[id];
                  row.logSize == was.logSize + bytes && was == row.(logSize := was.logSize))
  {
  }

  ghost predicate OtherCronJobsSame(t: Tables, u: Tables, id: string) {
    && u == t.(cronJobs := u.cronJobs) && u.cronJobs.Keys <= t.cronJobs.Keys + {id} &&
       t.cronJobs.Keys <= u.cronJobs.Keys
    && forall c :: c in t.cronJobs && c != id ==> u.cronJobs[c] == t.cronJobs[c]
  }

  /** Recording a CronJob stores its new spec and makes it live; a known one keeps its names, a new one
      has the names given.  Marking one as deleted changes nothing but the time, and makes no row. */
  lemma CronJobColumns(t: Tables, id: string, cluster: string, namespace: string, name: string, spec: string, now: int)
    ensures var u := Effect(t, UpsertCronJob(id, cluster, namespace, name, spec));
            OtherCronJobsSame(t, u, id) && id in u.cronJobs &&
            var row := u.cronJobs[id];
            && row.spec == spec && row.deletedAt == None
            && (if id in t.cronJobs then SameNames(row, t.cronJobs[id])
                else row.cluster == cluster && row.namespace == namespace && row.name == name)
    ensures var u := Effect(t, MarkCronJobDeleted(id, now));
            && OtherCronJobsSame(t, u, id) && (id !in t.cronJobs ==> u == t)
            && (id in t.cronJobs ==>
                  SameNames(u.cronJobs[id], t.cronJobs[id]) && u.cronJobs[id].spec == t.cronJobs[id].spec
                  && u.cronJobs[id].deletedAt.Some?)
  {
  }

  /** Recording a cluster stores its name and makes it live, and touches no other row.  Marking all but
      some leaves names and the clusters to keep as they are, and with none to keep changes nothing. */
  lemma ClusterColumns(t: Tables, id: string, name: string, keep: seq<string>, now: int)
    ensures var u := Effect(t, UpsertCluster(id, name));
            && u == t.(clusters := u.clusters) && u.clusters.Keys == t.clusters.Keys + {id}
            && u.clusters[id].name == name && u.clusters[id].deletedAt == None
            && (forall c :: c in t.clusters && c != id ==> u.clusters[c] == t.clusters[c])
    ensures var u := Effect(t, MarkClustersDeletedExcept(keep, now));
            && u == t.(clusters := u.clusters) && u.clusters.Keys == t.clusters.Keys
            && (keep == [] ==> u == t)
            && (forall c :: c in t.clusters ==> u.clusters[c].name == t.clusters[c].name)
            && (forall c :: c in t.clusters && c in keep ==> u.clusters[c] == t.clusters[c])
            && (keep != [] ==> forall c :: c in t.clusters && c !in keep ==> u.clusters[c].deletedAt.Some?)
  {
  }
}
