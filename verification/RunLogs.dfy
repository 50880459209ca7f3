/** Reading the log of one run back: the tail query, and what the API says about lines that are
    missing, over every history of flushes, upserts and retention. */
module RunLogs {
  import opened Store
  import opened LogStream

  // The last `limit` lines, or all of them.
  function Last(lines: seq<string>, limit: int): seq<string> {
    if limit <= 0 || |lines| <= limit then lines else lines[|lines| - limit..]
  }

  method GetLogLinesTail(store: SQLiteStore, id: string, limit: int) returns (out: seq<string>)
    ensures out == Last(Of(store.tables.lines, id), limit)
  {
    out := [];
    var lines := store.tables.lines;
    var i := |lines|;
    while i > 0 && (limit <= 0 || |out| < limit)
      invariant 0 <= i <= |lines| && Of(lines[i..], id) == out
      invariant limit > 0 ==> |out| <= limit
    {
      i := i - 1;
      assert lines[i..][1..] == lines[i + 1..];
      if lines[i].run == id {
        out := [lines[i].text] + out;
      }
    }
    OfConcat(lines[..i], lines[i..], id);
    assert lines[..i] + lines[i..] == lines;
    assert i == 0 ==> Of(lines[..i], id) == [];
  }

  datatype Response = NotFound | Logs(lines: seq<string>, size: int, expired: bool, truncated: bool, running: bool)

  // The expired rule of GetLogsV1.
  predicate Expired(t: Tables, id: string) {
    id in t.runs && Of(t.lines, id) == [] && t.runs[id].logSize > 0
  }

  /** Answers a request for the log of a run. */
  method GetLogsV1(store: SQLiteStore, id: string, limit: int) returns (r: Response)
    ensures r.NotFound? <==> id !in store.tables.runs
    ensures r.Logs? ==>
              var held := Of(store.tables.lines, id);
              && r.lines == Last(held, limit) && r.lines <= held[|held| - |r.lines|..]
              && (r.expired <==> Expired(store.tables, id))
              && (r.truncated <==> 0 < limit <= |held|)
              && (r.lines != held ==> r.truncated)
              && (r.truncated && r.lines == held ==> |held| == limit)
              && r.size == store.tables.runs[id].logSize
              && (r.running <==> store.tables.runs[id].status == Running)
  {
    if id !in store.tables.runs {
      return NotFound;
    }
    var run := store.tables.runs[id];
    var lines := GetLogLinesTail(store, id, limit);
    r := Logs(lines, run.logSize, |lines| == 0 && run.logSize > 0, limit > 0 &&
      |lines| == limit, run.status == Running);
  }

  // --- Histories --------------------------------------------------------------------------------

  // A flush of some run, or any other statement.
  datatype Change = Captured(id: string, batch: Batch, fault: Fault) | Issued(w: Write)

  predicate Proper(c: Change) {
    match c
    case Captured(_, batch, _) => Sized(batch)
    case Issued(w) => !w.s.BatchInsertLogLines? && !w.s.AddLogSize?
  }

  predicate SuccessfulWrites(c: Change) {
    c.Captured? ==> !InsertFails(c.batch, c.fault) && !c.fault.size
  }

  function Apply(t: Tables, c: Change): Tables {
    match c
    case Captured(id, batch, fault) => FlushEffect(t, id, batch, fault)
    case Issued(w) => After(t, w)
  }

  function State(h: seq<Change>): Tables {
    if h == [] then EMPTY else Apply(State(h[..|h| - 1]), h[|h| - 1])
  }

  // The lines captured since the row of the run was created.
  function CapturedSince(h: seq<Change>, id: string): seq<string> {
    if h == [] || id !in State(h).runs then []
    else
      var c, before := h[|h| - 1], CapturedSince(h[..|h| - 1], id);
      if c.Captured? && c.id == id && !InsertFails(c.batch, c.fault) then before + c.batch.texts else before
  }

  // The bytes accounted for since the row of the run was created.
  function SizedSince(h: seq<Change>, id: string): int {
    if h == [] || id !in State(h).runs then 0
    else
      var c, before := h[|h| - 1], SizedSince(h[..|h| - 1], id);
      if c.Captured? && c.id == id && !c.fault.size then before + c.batch.bytes else before
  }

  predicate Suffix(s: seq<string>, whole: seq<string>) {
    |s| <= |whole| && s == whole[|whole| - |s|..]
  }

  // One run's log in the store.
  datatype Log = Log(held: seq<string>, size: int)

  function LogOf(t: Tables, id: string): Log {
    Log(Of(t.lines, id), if id in t.runs then t.runs[id].logSize else 0)
  }

  lemma InsertSeen(t: Tables, id: string, other: string, texts: seq<string>, fault: bool)
    requires Integrity(t) && texts != []
    ensures var u := After(t, Write(BatchInsertLogLines(other, texts), fault));
            && Integrity(u) && u.runs == t.runs
            && Of(u.lines, id) == Of(t.lines, id) + if other == id && id in t.runs && !fault then texts else []
  {
    var w := Write(BatchInsertLogLines(other, texts), fault);
    if Lands(t, w) {
      EffectIntegrity(t, w.s);
      OfConcat(t.lines, Rows(other, texts), id);
      OfRows(other, texts, id);
    } else {
      assert Of(t.lines, id) + [] == Of(t.lines, id);
    }
  }

  lemma SizeSeen(t: Tables, id: string, other: string, bytes: int, fault: bool)
    requires Integrity(t)
    ensures var u := After(t, Write(AddLogSize(other, bytes), fault));
            && Integrity(u) && u.runs.Keys == t.runs.Keys && u.lines == t.lines
            && LogOf(u, id).size == LogOf(t, id).size + if other == id && id in t.runs && !fault then bytes else 0
  {
    EffectIntegrity(t, AddLogSize(other, bytes));
  }

  lemma FlushSeen(t: Tables, id: string, c: Change)
    requires c.Captured? && Proper(c) && Integrity(t)
    ensures Integrity(Apply(t, c)) && Apply(t, c).runs.Keys == t.runs.Keys
    ensures var landed := c.id == id && id in t.runs;
            LogOf(Apply(t, c), id) ==
              Log(LogOf(t, id).held + (if landed && !InsertFails(c.batch, c.fault) then c.batch.texts else []),
                  LogOf(t, id).size + (if landed && !c.fault.size then c.batch.bytes else 0))
  {
    InsertSeen(t, id, c.id, c.batch.texts, InsertFails(c.batch, c.fault));
    var inserted := After(t, Write(BatchInsertLogLines(c.id, c.batch.texts), InsertFails(c.batch, c.fault)));
    SizeSeen(inserted, id, c.id, c.batch.bytes, c.fault.size);
  }

  lemma {:induction false} NoLinesWithoutRun(lines: seq<LogLine>, id: string)
    requires forall l :: l in lines ==> l.run != id
    ensures Of(lines, id) == []
  {
    if lines != [] {
      NoLinesWithoutRun(lines[1..], id);
    }
  }

  // Other statements either leave a run's log alone, or empty it, or create or delete the row.
  lemma StatementSeen(t: Tables, id: string, w: Write)
    requires Proper(Issued(w)) && Integrity(t)
    ensures Integrity(After(t, w))
    ensures var u := After(t, w);
            && (id !in u.runs ==> LogOf(u, id) == Log([], 0))
            && (id in u.runs && id !in t.runs ==> LogOf(u, id) == Log([], 0))
            && (id in u.runs && id in t.runs ==>
               LogOf(u, id).size == LogOf(t, id).size && LogOf(u, id).held in {[], LogOf(t, id).held})
  {
    var u := After(t, w);
    if Lands(t, w) {
      EffectIntegrity(t, w.s);
      match w.s
      case DeleteOldLogLines(before) => OfWithout(t.lines, OldRuns(t, before), id);
      case DeleteOldData(before) => OfWithout(t.lines, OldRuns(t, before), id);
      case PurgeDeletedCronJobs(before) => PurgeIsSafe(t, before);
      case _ =>
    }
    if id !in u.runs {
      NoLinesWithoutRun(u.lines, id);
    } else if id !in t.runs {
      NoLinesWithoutRun(t.lines, id);
    }
  }

  // What a history says about one run's log.
  ghost predicate Explained(h: seq<Change>, id: string) {
    && Integrity(State(h))
    && Suffix(Of(State(h).lines, id), CapturedSince(h, id))
    && LogOf(State(h), id).size == SizedSince(h, id) >= 0
  }

  lemma SuffixGrows(s: seq<string>, whole: seq<string>, more: seq<string>)
    requires Suffix(s, whole)
    ensures Suffix(s + more, whole + more)
  {
  }

  lemma {:induction false} FlushExplained(h: seq<Change>, id: string)
    requires h != [] && h[|h| - 1].Captured? && forall c :: c in h ==> Proper(c)
    ensures Explained(h, id)
    decreases |h|, 0
  {
    var before, c := h[..|h| - 1], h[|h| - 1];
    HeldIsTheEnd(before, id);
    var t := State(before);
    FlushSeen(t, id, c);
    NoneWithoutRow(before, id);
    if id in t.runs && c.id == id && !InsertFails(c.batch, c.fault) {
      SuffixGrows(Of(t.lines, id), CapturedSince(before, id), c.batch.texts);
    } else {
      assert Of(t.lines, id) + [] == Of(t.lines, id);
    }
  }

  lemma {:induction false} StatementExplained(h: seq<Change>, id: string)
    requires h != [] && h[|h| - 1].Issued? && forall c :: c in h ==> Proper(c)
    ensures Explained(h, id)
    decreases |h|, 0
  {
    var before, c := h[..|h| - 1], h[|h| - 1];
    HeldIsTheEnd(before, id);
    StatementSeen(State(before), id, c.w);
    NoneWithoutRow(before, id);
  }

  /** What the store holds of a run's log is always the end of what was captured since its row was
      created, and its size is what was accounted for since then; re-upserts change neither. */
  lemma {:induction false} HeldIsTheEnd(h: seq<Change>, id: string)
    requires forall c :: c in h ==> Proper(c)
    ensures Explained(h, id)
    decreases |h|, 1
  {
    if h != [] {
      if h[|h| - 1].Captured? {
        FlushExplained(h, id);
      } else {
        StatementExplained(h, id);
      }
    }
  }

  lemma NoneWithoutRow(h: seq<Change>, id: string)
    ensures id !in State(h).runs ==> CapturedSince(h, id) == [] && SizedSince(h, id) == 0
  {
  }

  lemma {:induction false} SizedWhenCaptured(h: seq<Change>, id: string)
    requires forall c :: c in h ==> Proper(c) && SuccessfulWrites(c)
    ensures SizedSince(h, id) > 0 <==> CapturedSince(h, id) != []
    ensures SizedSince(h, id) >= 0
  {
    if h != [] {
      SizedWhenCaptured(h[..|h| - 1], id);
      assert Proper(h[|h| - 1]) && SuccessfulWrites(h[|h| - 1]);
    }
  }

  /** With successful writes a log is reported as expired exactly when some of it was once captured
      and none of it is held now. */
  lemma ExpiredIsExact(h: seq<Change>, id: string)
    requires forall c :: c in h ==> Proper(c) && SuccessfulWrites(c)
    requires id in State(h).runs
    ensures Expired(State(h), id) <==> CapturedSince(h, id) != [] && Of(State(h).lines, id) == []
  {
    HeldIsTheEnd(h, id);
    SizedWhenCaptured(h, id);
  }

  /** With failing writes it is exact just when lines are still held, or an insert and a size update
      have gone through since the row was created, or neither has. */
  lemma ExpiredExactIff(h: seq<Change>, id: string)
    requires forall c :: c in h ==> Proper(c)
    requires id in State(h).runs
    ensures (Expired(State(h), id) <==> CapturedSince(h, id) != [] && Of(State(h).lines, id) == [])
            <==> Of(State(h).lines, id) != [] || (SizedSince(h, id) > 0 <==> CapturedSince(h, id) != [])
  {
    HeldIsTheEnd(h, id);
  }

  // A run on record, with nothing captured yet.
  function OneRun(id: string): seq<Change> {
    [Issued(Write(UpsertCluster("c", ""), false)),
     Issued(Write(UpsertCronJob("c/n/j", "c", "n", "j", ""), false)),
     Issued(Write(UpsertJobRun(id, "c/n/j", "j-1", false, 0, Running), false))]
  }

  lemma OneRunState(id: string)
    ensures var t := State(OneRun(id));
            id in t.runs && t.lines == [] && t.runs[id].logSize == 0 && t.runs[id].started == 0
    ensures CapturedSince(OneRun(id), id) == []
  {
    var h := OneRun(id);
    assert h[..2] == [h[0], h[1]] && h[..2][..1] == [h[0]] && h[..1][..0] == [];
    assert State(h[..1]) == Apply(EMPTY, h[0]);
    assert State(h[..2]) == Apply(State(h[..1]), h[1]);
    assert id !in State(h[..2]).runs;
  }

  /** Reported as expired although nothing was ever captured: the only insert failed and its size
      update did not. */
  lemma ExpiredWithoutCapture(id: string, batch: Batch)
    requires Sized(batch)
    ensures var h := OneRun(id) + [Captured(id, batch, Fault(0, false, false))];
            && (forall c :: c in h ==> Proper(c)) && id in State(h).runs
            && Expired(State(h), id) && CapturedSince(h, id) == []
  {
    OneRunState(id);
    var h := OneRun(id) + [Captured(id, batch, Fault(0, false, false))];
    assert h[..3] == OneRun(id);
  }

  lemma UnsizedCapture(h: seq<Change>, id: string, batch: Batch)
    requires id in State(h).runs
    ensures var g := h + [Captured(id, batch, Fault(|batch.texts|, false, true))];
            State(g).runs == State(h).runs && CapturedSince(g, id) == CapturedSince(h, id) + batch.texts
  {
    var c := Captured(id, batch, Fault(|batch.texts|, false, true));
    assert (h + [c])[..|h|] == h;
    assert State(h + [c]) == Apply(State(h), c);
    UnsizedKeepsRuns(State(h), id, batch);
  }

  lemma UnsizedKeepsRuns(t: Tables, id: string, batch: Batch)
    ensures FlushEffect(t, id, batch, Fault(|batch.texts|, false, true)).runs == t.runs
  {
  }

  lemma RetentionEmpties(t: Tables, id: string, before: int)
    requires id in t.runs && t.runs[id].started < before
    ensures var u := Effect(t, DeleteOldLogLines(before)); u.runs == t.runs && Of(u.lines, id) == []
  {
    OfWithout(t.lines, OldRuns(t, before), id);
  }

  lemma IssuedCapturesNothing(h: seq<Change>, id: string, w: Write)
    requires id in State(h + [Issued(w)]).runs
    ensures CapturedSince(h + [Issued(w)], id) == CapturedSince(h, id)
  {
    assert (h + [Issued(w)])[..|h|] == h;
  }

  lemma Emptied(h: seq<Change>, id: string, before: int)
    requires id in State(h).runs && State(h).runs[id].started < before
    ensures var g := h + [Issued(Write(DeleteOldLogLines(before), false))];
            State(g).runs == State(h).runs && CapturedSince(g, id) == CapturedSince(h, id) &&
              Of(State(g).lines, id) == []
  {
    var w := Write(DeleteOldLogLines(before), false);
    assert (h + [Issued(w)])[..|h|] == h;
    RetentionEmpties(State(h), id, before);
    assert State(h + [Issued(w)]) == Effect(State(h), w.s);
    IssuedCapturesNothing(h, id, w);
  }

  // A capture whose size update fails, and a retention pass over its lines.
  function Lost(id: string, batch: Batch): seq<Change> {
    OneRun(id) + [Captured(id, batch, Fault(|batch.texts|, false, true))] + [Issued(Write(DeleteOldLogLines(1), false))]
  }

  /** Not reported although all was captured and lost. */
  lemma LostWithoutExpiry(id: string, batch: Batch)
    requires Sized(batch)
    ensures (forall c :: c in Lost(id, batch) ==> Proper(c)) && id in State(Lost(id, batch)).runs
    ensures !Expired(State(Lost(id, batch)), id)
    ensures CapturedSince(Lost(id, batch), id) == batch.texts && Of(State(Lost(id, batch)).lines, id) == []
  {
    OneRunState(id);
    UnsizedCapture(OneRun(id), id, batch);
    Emptied(OneRun(id) + [Captured(id, batch, Fault(|batch.texts|, false, true))], id, 1);
    LostIsProper(id, batch);
  }

  lemma LostIsProper(id: string, batch: Batch)
    requires Sized(batch)
    ensures forall c :: c in Lost(id, batch) ==> Proper(c)
  {
  }
}
