/** The hourly retention pass: three deletes in order against the store. */
module Retention {
  import opened Store

  // A CronJob that the pass drops: soft-deleted before the cutoff, with no run from the cutoff on.
  ghost predicate AgedOut(t: Tables, id: string, before: int)
    requires id in t.cronJobs
  {
    && t.cronJobs[id].deletedAt.Some? && t.cronJobs[id].deletedAt.value < before
    && forall run :: run in t.runs && t.runs[run].cronJob == id ==> t.runs[run].started < before
  }

  ghost predicate RunsSwept(was: Tables, now: Tables, before: int) {
    && (forall id :: id in now.runs <==> id in was.runs && was.runs[id].started >= before)
    && (forall id :: id in now.runs ==> now.runs[id] == was.runs[id])
  }

  ghost predicate LinesSwept(was: Tables, now: Tables, logBefore: int, before: int) {
    forall id :: id in was.runs ==>
      Of(now.lines, id) ==
      if was.runs[id].started < before || was.runs[id].started < logBefore then [] else Of(was.lines, id)
  }

  ghost predicate CronJobsSwept(was: Tables, now: Tables, before: int) {
    && (forall id :: id in now.cronJobs <==> id in was.cronJobs && !AgedOut(was, id, before))
    && (forall id :: id in now.cronJobs ==> now.cronJobs[id] == was.cronJobs[id])
  }

  /** One pass.  `logBefore` and `before` are the two cutoffs; each delete may fail on its own, and
      the next one is issued all the same. */
  method RunRetention(store: SQLiteStore, logBefore: int, before: int, linesFault: bool, runsFault: bool,
                      purgeFault: bool)
    requires Integrity(store.tables)
    modifies store
    ensures Integrity(store.tables) && store.tables.clusters == old(store.tables.clusters)
    ensures !linesFault && !runsFault && !purgeFault ==>
              && RunsSwept(old(store.tables), store.tables, before)
              && LinesSwept(old(store.tables), store.tables, logBefore, before)
              && CronJobsSwept(old(store.tables), store.tables, before)
    ensures runsFault ==> store.tables.runs == old(store.tables.runs)
    ensures linesFault && runsFault ==> store.tables.lines == old(store.tables.lines)
    ensures forall id :: id in old(store.tables.runs) && old(store.tables.runs)[id].started >= before ==>
              id in store.tables.runs && store.tables.runs[id] == old(store.tables.runs)[id]
    ensures forall id :: id in old(store.tables.cronJobs) && id !in store.tables.cronJobs ==>
              AgedOut(old(store.tables), id, before)
  {
    var _ := store.Exec(DeleteOldLogLines(logBefore), linesFault);
    ghost var afterLines := store.tables;
    var _ := store.Exec(DeleteOldData(before), runsFault);
    ghost var afterRuns := store.tables;
    var _ := store.Exec(PurgeDeletedCronJobs(before), purgeFault);
    PassIntegrity(old(store.tables), afterLines, afterRuns, store.tables, logBefore, before, linesFault, runsFault,
      purgeFault);
    if !linesFault && !runsFault && !purgeFault {
      PassSweeps(old(store.tables), afterLines, afterRuns, store.tables, logBefore, before);
    }
    PurgeStep(afterRuns, store.tables, before, purgeFault);
    RunsStep(afterLines, afterRuns, before, runsFault);
  }

  lemma PassIntegrity(t0: Tables, t1: Tables, t2: Tables, t3: Tables, logBefore: int, before: int, f1: bool, f2: bool,
                      f3: bool)
    requires Integrity(t0) && t1 == After(t0, Write(DeleteOldLogLines(logBefore), f1))
    requires t2 == After(t1, Write(DeleteOldData(before), f2)) &&
             t3 == After(t2, Write(PurgeDeletedCronJobs(before), f3))
    ensures Integrity(t1) && Integrity(t2) && Integrity(t3)
  {
    EffectIntegrity(t0, DeleteOldLogLines(logBefore));
    EffectIntegrity(t1, DeleteOldData(before));
    EffectIntegrity(t2, PurgeDeletedCronJobs(before));
  }

  lemma RunsStep(t: Tables, u: Tables, before: int, fault: bool)
    requires u == After(t, Write(DeleteOldData(before), fault))
    ensures fault ==> u == t
    ensures !fault ==> RunsSwept(t, u, before)
    ensures u.cronJobs == t.cronJobs && u.clusters == t.clusters
  {
  }

  lemma PurgeStep(t: Tables, u: Tables, before: int, fault: bool)
    requires Integrity(t) && u == After(t, Write(PurgeDeletedCronJobs(before), fault))
    ensures u.runs == t.runs && u.lines == t.lines && u.clusters == t.clusters
    ensures forall id :: id in t.cronJobs && id !in u.cronJobs ==> id in Purgeable(t, before)
    ensures !fault ==> forall id :: id in u.cronJobs <==> id in t.cronJobs && id !in Purgeable(t, before)
    ensures forall id :: id in u.cronJobs ==> id in t.cronJobs && u.cronJobs[id] == t.cronJobs[id]
  {
    PurgeIsSafe(t, before);
  }

  // What is left of the runs decides what may be purged.
  lemma PurgeableIsAgedOut(t: Tables, u: Tables, before: int, id: string)
    requires RunsSwept(t, u, before) && u.cronJobs == t.cronJobs && id in t.cronJobs
    ensures id in Purgeable(u, before) <==> AgedOut(t, id, before)
  {
    if AgedOut(t, id, before) {
      forall run | run in u.runs
        ensures u.runs[run].cronJob != id
      {
      }
    }
    if id in Purgeable(u, before) {
      forall run | run in t.runs && t.runs[run].cronJob == id
        ensures t.runs[run].started < before
      {
        assert run !in u.runs;
      }
    }
  }

  lemma CronJobsGo(t: Tables, t2: Tables, t3: Tables, before: int)
    requires RunsSwept(t, t2, before) && t2.cronJobs == t.cronJobs
    requires forall id :: id in t3.cronJobs <==> id in t2.cronJobs && id !in Purgeable(t2, before)
    requires forall id :: id in t3.cronJobs ==> id in t2.cronJobs && t3.cronJobs[id] == t2.cronJobs[id]
    ensures CronJobsSwept(t, t3, before)
  {
    forall id | id in t.cronJobs
      ensures id in Purgeable(t2, before) <==> AgedOut(t, id, before)
    {
      PurgeableIsAgedOut(t, t2, before, id);
    }
  }

  lemma PassLines(t: Tables, logBefore: int, before: int, id: string)
    requires id in t.runs
    ensures Of(Without(Without(t.lines, OldRuns(t, logBefore)), OldRuns(t, before)), id) ==
            if t.runs[id].started < before || t.runs[id].started < logBefore then [] else Of(t.lines, id)
  {
    OfWithout(t.lines, OldRuns(t, logBefore), id);
    OfWithout(Without(t.lines, OldRuns(t, logBefore)), OldRuns(t, before), id);
  }

  lemma LinesGo(t: Tables, t1: Tables, t2: Tables, logBefore: int, before: int)
    requires t1 == After(t, Write(DeleteOldLogLines(logBefore), false)) &&
             t2 == After(t1, Write(DeleteOldData(before), false))
    ensures LinesSwept(t, t2, logBefore, before) && t1.runs == t.runs && t1.cronJobs == t.cronJobs
  {
    forall id | id in t.runs
      ensures Of(t2.lines, id) ==
              if t.runs[id].started < before || t.runs[id].started < logBefore then [] else Of(t.lines, id)
    {
      PassLines(t, logBefore, before, id);
    }
  }

  /** After a pass without failures no run older than its cutoff is left and no newer one is touched;
      exactly the runs older than either cutoff have lost their log lines; and a CronJob is gone just
      when it was deleted before the cutoff and all its runs started before it. */
  lemma PassSweeps(t: Tables, t1: Tables, t2: Tables, t3: Tables, logBefore: int, before: int)
    requires Integrity(t) && t1 == After(t, Write(DeleteOldLogLines(logBefore), false))
    requires t2 == After(t1, Write(DeleteOldData(before), false)) &&
             t3 == After(t2, Write(PurgeDeletedCronJobs(before), false))
    ensures RunsSwept(t, t3, before) && LinesSwept(t, t3, logBefore, before) && CronJobsSwept(t, t3, before)
  {
    LinesGo(t, t1, t2, logBefore, before);
    RunsStep(t1, t2, before, false);
    PassIntegrity(t, t1, t2, t3, logBefore, before, false, false, false);
    PurgeStep(t2, t3, before, false);
    CronJobsGo(t, t2, t3, before);
  }
}
