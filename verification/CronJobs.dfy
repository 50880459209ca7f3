/** CronJob events against the store: identifiers, upserts, deletions and the startup reconcile. */
module CronJobs {
  import opened Common
  import opened Store

  // --- Identifiers ----------------------------------------------------------------------------

  // <clusterID>/<namespace>/<name>
  function Id(cluster: string, namespace: string, name: string): string {
    cluster + "/" + namespace + "/" + name
  }

  // Kubernetes names hold no slash.
  predicate Plain(s: string) { '/' !in s }

  function FirstSlash(s: string): (n: nat)
    ensures n <= |s|
  {
    if s == "" || s[0] == '/' then 0 else 1 + FirstSlash(s[1..])
  }

  lemma {:induction false} SlashAfter(a: string, b: string)
    requires Plain(a)
    ensures FirstSlash(a + "/" + b) == |a|
  {
    if a != "" {
      assert (a + "/" + b)[1..] == a[1..] + "/" + b;
      SlashAfter(a[1..], b);
    }
  }

  // What splitCronJobID makes of an id: three parts, or whatever is there.
  function SplitId(id: string): (string, string, string) {
    var i := FirstSlash(id);
    if i == |id| then (id, "", "")
    else
      var rest := id[i + 1..];
      var j := FirstSlash(rest);
      if j == |rest| then (id[..i], rest, "") else (id[..i], rest[..j], rest[j + 1..])
  }

  /** Splitting an id gives back its parts, so no two CronJobs share one. */
  lemma SplitIdRoundTrip(cluster: string, namespace: string, name: string)
    requires Plain(cluster) && Plain(namespace)
    ensures SplitId(Id(cluster, namespace, name)) == (cluster, namespace, name)
  {
    var rest := namespace + "/" + name;
    assert Id(cluster, namespace, name) == cluster + "/" + rest;
    SlashAfter(cluster, rest);
    SlashAfter(namespace, name);
    assert (cluster + "/" + rest)[|cluster| + 1..] == rest;
    assert (cluster + "/" + rest)[..|cluster|] == cluster;
    assert rest[..|namespace|] == namespace && rest[|namespace| + 1..] == name;
  }

  // An id with fewer parts fills them from the front.
  lemma SplitIdShort(cluster: string, namespace: string)
    requires Plain(cluster) && Plain(namespace)
    ensures SplitId(cluster) == (cluster, "", "") && SplitId(cluster + "/" + namespace) == (cluster, namespace, "")
  {
    NoSlash(cluster);
    NoSlash(namespace);
    SlashAfter(cluster, namespace);
    assert (cluster + "/" + namespace)[|cluster| + 1..] == namespace;
    assert (cluster + "/" + namespace)[..|cluster|] == cluster;
  }

  lemma {:induction false} NoSlash(a: string)
    requires Plain(a)
    ensures FirstSlash(a) == |a|
  {
    if a != "" {
      NoSlash(a[1..]);
    }
  }

  // Within one cluster, whatever its own id looks like.
  lemma IdInjective(cluster: string, namespace: string, name: string, otherNamespace: string, otherName: string)
    requires Plain(namespace) && Plain(otherNamespace)
    requires Id(cluster, namespace, name) == Id(cluster, otherNamespace, otherName)
    ensures namespace == otherNamespace && name == otherName
  {
    var a, b := namespace + "/" + name, otherNamespace + "/" + otherName;
    assert Id(cluster, namespace, name) == cluster + "/" + a &&
           Id(cluster, otherNamespace, otherName) == cluster + "/" + b;
    assert a == (cluster + "/" + a)[|cluster| + 1..] == (cluster + "/" + b)[|cluster| + 1..] == b;
    SlashAfter(namespace, name);
    SlashAfter(otherNamespace, otherName);
    assert namespace == a[..|namespace|] && name == a[|namespace| + 1..];
    assert otherNamespace == b[..|otherNamespace|] && otherName == b[|otherNamespace| + 1..];
  }

  ghost predicate WellKeyed(t: Tables) {
    forall id :: id in t.cronJobs ==> RowKeyed(id, t.cronJobs[id])
  }

  predicate RowKeyed(id: string, c: CronJob) {
    id == Id(c.cluster, c.namespace, c.name) && Plain(c.namespace)
  }

  // The handler computes every id it upserts.
  predicate Computed(w: Write) {
    w.s.UpsertCronJob? ==> w.s.id == Id(w.s.cluster, w.s.namespace, w.s.name) && Plain(w.s.namespace)
  }

  lemma {:induction false} KeysAlways(h: seq<Write>)
    requires forall w :: w in h ==> Computed(w)
    ensures WellKeyed(Replay(h))
  {
    if h != [] {
      var t, w := Replay(h[..|h| - 1]), h[|h| - 1];
      KeysAlways(h[..|h| - 1]);
      assert Computed(w);
      KeysKept(t, w);
    }
  }

  lemma KeysKept(t: Tables, w: Write)
    requires WellKeyed(t) && Computed(w)
    ensures WellKeyed(After(t, w))
  {
  }

  /** So no id but the computed one ever holds a CronJob's name, and an upsert on a known id never meets
      the uniqueness of names. */
  lemma NameHasOneId(h: seq<Write>, id: string, cluster: string, namespace: string, name: string)
    requires forall w :: w in h ==> Computed(w)
    requires id in Replay(h).cronJobs
    requires var c := Replay(h).cronJobs[id]; c.cluster == cluster && c.namespace == namespace && c.name == name
    ensures id == Id(cluster, namespace, name)
  {
    KeysAlways(h);
    assert RowKeyed(id, Replay(h).cronJobs[id]);
  }

  // --- Reconcile ------------------------------------------------------------------------------

  predicate Live(t: Tables, cluster: string, id: string) {
    id in t.cronJobs && t.cronJobs[id].cluster == cluster && t.cronJobs[id].deletedAt.None?
  }

  // The cluster no longer shows a CronJob that the store lists.
  predicate Absent(t: Tables, cluster: string, live: seq<(string, string)>, id: string) {
    Live(t, cluster, id) && (t.cronJobs[id].namespace, t.cronJobs[id].name) !in live
  }

  // The rows `gone` marked as deleted, each at its time.
  function MarkedAll(t: Tables, gone: set<string>, clock: string -> int): Tables {
    t.(cronJobs := map id | id in t.cronJobs ::
         if id in gone then t.cronJobs[id].(deletedAt := Some(clock(id))) else t.cronJobs[id])
  }

  // Every absent CronJob is marked, unless its statement fails.
  function Reconciled(t: Tables, cluster: string, live: seq<(string, string)>, clock: string -> int,
                      faults: set<string>): Tables {
    MarkedAll(t, (set id | id in t.cronJobs && Absent(t, cluster, live, id) && id !in faults), clock)
  }

  // What an informer hands to a delete handler: the object, a tombstone that may wrap the last known
  // one, or something else.
  datatype Deletion = Known(namespace: string, name: string) | Tombstone(last: Option<(string, string)>) | Foreign

  function NameOf(d: Deletion): Option<(string, string)> {
    match d
    case Known(namespace, name) => Some((namespace, name))
    case Tombstone(last) => last
    case Foreign => None
  }

  class CronJobHandler {
    const clusterID: string
    const store: SQLiteStore

    constructor (clusterID: string, store: SQLiteStore)
      ensures this.clusterID == clusterID && this.store == store
    {
      this.clusterID := clusterID;
      this.store := store;
    }

    // The rows still present in this cluster, in no particular order.
    method ListCronJobs() returns (ids: seq<string>)
      ensures forall id :: id in ids <==> Live(store.tables, clusterID, id)
      ensures forall i, j :: 0 <= i < j < |ids| ==> ids[i] != ids[j]
    {
      ids := [];
      var left := store.tables.cronJobs.Keys;
      while left != {}
        invariant left <= store.tables.cronJobs.Keys
        invariant forall id :: id in ids <==> Live(store.tables, clusterID, id) && id !in left
        invariant forall i, j :: 0 <= i < j < |ids| ==> ids[i] != ids[j]
        decreases |left|
      {
        var id :| id in left;
        if store.tables.cronJobs[id].cluster == clusterID && store.tables.cronJobs[id].deletedAt.None? {
          ids := ids + [id];
        }
        left := left - {id};
      }
    }

    method MarkDeleted(namespace: string, name: string, now: int, fault: bool)
      modifies store
      ensures store.tables ==
              After(old(store.tables), Write(MarkCronJobDeleted(Id(clusterID, namespace, name), now), fault))
    {
      var _ := store.Exec(MarkCronJobDeleted(Id(clusterID, namespace, name), now), fault);
    }

    method Upsert(namespace: string, name: string, spec: string, fault: bool)
      modifies store
      ensures store.tables ==
              After(old(store.tables),
              Write(UpsertCronJob(Id(clusterID, namespace, name), clusterID, namespace, name, spec), fault))
    {
      var _ := store.Exec(UpsertCronJob(Id(clusterID, namespace, name), clusterID, namespace, name, spec), fault);
    }

    // An added and an updated CronJob are handled alike.
    method OnAdd(namespace: string, name: string, spec: string, fault: bool)
      modifies store
      ensures store.tables ==
              After(old(store.tables),
              Write(UpsertCronJob(Id(clusterID, namespace, name), clusterID, namespace, name, spec), fault))
    {
      Upsert(namespace, name, spec, fault);
    }

    method OnDelete(d: Deletion, now: int, fault: bool)
      modifies store
      ensures store.tables == if NameOf(d).None? then old(store.tables)
                              else After(old(store.tables),
                                Write(MarkCronJobDeleted(Id(clusterID, NameOf(d).value.0, NameOf(d).value.1), now),
                                fault))
    {
      if d.Known? {
        MarkDeleted(d.namespace, d.name, now, fault);
      } else if d.Tombstone? && d.last.Some? {
        MarkDeleted(d.last.value.0, d.last.value.1, now, fault);
      }
    }

    /** Marks the CronJobs that the store still lists and the cluster no longer has. */
    method Reconcile(live: seq<(string, string)>, clock: string -> int, listFault: bool, faults: set<string>)
      requires WellKeyed(store.tables) && forall c :: c in live ==> Plain(c.0)
      modifies store
      ensures store.tables == if listFault then old(store.tables)
              else Reconciled(old(store.tables), clusterID, live, clock, faults)
    {
      var present: set<string> := {};
      for i := 0 to |live|
        invariant present == set c | c in live[..i] :: Id(clusterID, c.0, c.1)
      {
        present := present + {Id(clusterID, live[i].0, live[i].1)};
        assert live[..i + 1] == live[..i] + [live[i]];
      }
      assert live[..|live|] == live;
      if listFault {
        return;
      }
      var stored := ListCronJobs();
      ghost var t, gone: set<string> := store.tables, {};
      assert MarkedAll(t, gone, clock) == t;
      for i := 0 to |stored|
        invariant store.tables == MarkedAll(t, gone, clock)
        invariant forall id :: id in gone <==> id in stored[..i] && Absent(t, clusterID, live, id) && id !in faults
      {
        var id := stored[i];
        assert Live(t, clusterID, id) && RowKeyed(id, t.cronJobs[id]);
        PresentIff(t, clusterID, live, id, present);
        assert id !in stored[..i];
        if id !in present {
          MarkDeleted(store.tables.cronJobs[id].namespace, store.tables.cronJobs[id].name, clock(id), id in faults);
          if id !in faults {
            MarkOneMore(t, gone, clock, id);
            gone := gone + {id};
          }
        }
        assert stored[..i + 1] == stored[..i] + [id];
      }
      assert stored[..|stored|] == stored;
      assert gone == set id | id in t.cronJobs && Absent(t, clusterID, live, id) && id !in faults;
    }
  }

  lemma MarkOneMore(t: Tables, gone: set<string>, clock: string -> int, id: string)
    requires id in t.cronJobs && t.cronJobs[id].deletedAt.None? && id !in gone
    ensures MarkedAll(t, gone + {id}, clock) ==
            After(MarkedAll(t, gone, clock), Write(MarkCronJobDeleted(id, clock(id)), false))
  {
    var u := After(MarkedAll(t, gone, clock), Write(MarkCronJobDeleted(id, clock(id)), false));
    assert MarkedAll(t, gone + {id}, clock).cronJobs == u.cronJobs;
  }

  lemma PresentIff(t: Tables, cluster: string, live: seq<(string, string)>, id: string, present: set<string>)
    requires Live(t, cluster, id) && RowKeyed(id, t.cronJobs[id]) && forall c :: c in live ==> Plain(c.0)
    requires present == set c | c in live :: Id(cluster, c.0, c.1)
    ensures id !in present <==> Absent(t, cluster, live, id)
  {
    var row := t.cronJobs[id];
    if id in present {
      var c :| c in live && Id(cluster, c.0, c.1) == id;
      IdInjective(cluster, row.namespace, row.name, c.0, c.1);
      assert c == (row.namespace, row.name);
    }
  }

  /** After a reconcile without failures, exactly the CronJobs that were live and are still present
      are live; other clusters, earlier deletions, runs and log lines are as they were. */
  lemma ReconcileIsExact(t: Tables, cluster: string, live: seq<(string, string)>, clock: string -> int, id: string)
    ensures var u := Reconciled(t, cluster, live, clock, {});
            && (Live(u, cluster, id) <==>
               Live(t, cluster, id) && (t.cronJobs[id].namespace, t.cronJobs[id].name) in live)
            && u == t.(cronJobs := u.cronJobs) && u.cronJobs.Keys == t.cronJobs.Keys
            && (id in t.cronJobs && !Live(t, cluster, id) ==> u.cronJobs[id] == t.cronJobs[id])
  {
  }

  /** The snapshot of the cluster is taken before the store is listed.  A CronJob that appears in
      between is marked deleted although it exists, until its next event brings it back. */
  lemma LateArrivalIsMarked(t: Tables, cluster: string, live: seq<(string, string)>, clock: string -> int,
                            namespace: string, name: string, spec: string)
    requires (namespace, name) !in live && Id(cluster, namespace, name) !in t.cronJobs
    requires Accepts(t, UpsertCronJob(Id(cluster, namespace, name), cluster, namespace, name, spec))
    ensures var id := Id(cluster, namespace, name);
            var upsert := Write(UpsertCronJob(id, cluster, namespace, name, spec), false);
            var u := Reconciled(After(t, upsert), cluster, live, clock, {});
            Live(After(t, upsert), cluster, id) && !Live(u, cluster, id) && Live(After(u, upsert), cluster, id)
  {
    var id := Id(cluster, namespace, name);
    assert Absent(After(t, Write(UpsertCronJob(id, cluster, namespace, name, spec), false)), cluster, live, id);
  }

  /** What a reconcile does to each row, in so many words: it stamps the CronJobs of its cluster that were
      live, are not in the cluster any more, and whose statement does not fail, with the time of the
      statement; it changes no other column and no other row. */
  lemma ReconciledRow(t: Tables, cluster: string, live: seq<(string, string)>, clock: string -> int,
                      faults: set<string>, id: string)
    requires id in t.cronJobs
    ensures id in Reconciled(t, cluster, live, clock, faults).cronJobs
    ensures var was, now := t.cronJobs[id], Reconciled(t, cluster, live, clock, faults).cronJobs[id];
            && now == was.(deletedAt := now.deletedAt)
            && now.deletedAt ==
               if was.cluster == cluster && was.deletedAt == None && (was.namespace, was.name) !in live && id !in faults
               then Some(clock(id)) else was.deletedAt
  {
  }

  /** What a delete event is about: the CronJob itself, or the one that a tombstone wraps. */
  lemma DeletedName(namespace: string, name: string)
    ensures NameOf(Known(namespace, name)) == Some((namespace, name))
    ensures NameOf(Tombstone(Some((namespace, name)))) == Some((namespace, name))
    ensures NameOf(Tombstone(None)) == None && NameOf(Foreign) == None
  {
  }

  // How an id is spelled.
  lemma IdSpelled()
    ensures Id("prod", "batch", "report") == "prod/batch/report"
  {
  }
}
