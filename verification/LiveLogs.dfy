/** Live log delivery of one run, as a protocol between the log streamers of the run and one viewer.

    Lines are numbered by the order in which they are flushed.  Each store transaction, each
    lock-held section and each channel operation is one step, and any number of goroutines
    interleave.  The viewer is one GET .../stream request for a running run; further viewers have
    channels of their own and do not touch this one. */
module LiveLogs {
  import B = Broadcaster

  const FLUSH_MAX_LINES: nat := 200
  const SSE_LOG_LIMIT: nat := 5000

  // A goroutine started by Stream: reading and flushing, or past the deletion of its guard entry
  // and on its way to closing the run's channels.
  datatype Worker = Running(batch: nat, pending: seq<nat>) | Leaving

  datatype Phase = Away | Subscribed | Watching | Gone

  datatype Viewer = Viewer(
    phase: Phase,
    registered: bool,       // its channel is in the broadcaster's list
    buf: seq<nat>,          // its channel
    live: seq<nat>,         // lines received and forwarded
    dropped: set<nat>,      // lines that met a full channel after the replay was read
    heard: nat,             // publications that were over when it was last registered
    replay: Replay)

  // What the replay was, whether the read went well, and what the world looked like then.
  datatype Replay = Unread | Replay(ok: bool, hist: seq<nat>, rows: seq<nat>, next: nat, published: nat, buf: seq<nat>)

  datatype State = State(
    streaming: bool,        // the guard entry of the run
    workers: seq<Worker>,
    next: nat,              // lines flushed so far
    published: nat,         // lines whose publication is over
    rows: seq<nat>,         // lines in the store
    viewer: Viewer)

  datatype Step =
    | StreamCall
    | ReadLine(i: nat)
    | Insert(i: nat, ok: bool)
    | PublishLine(i: nat)
    | Finish(i: nat)
    | CloseRun(i: nat)
    | Subscribe
    | ReadHistory(ok: bool)
    | Receive
    | Leave

  const NOBODY := Viewer(Away, false, [], [], {}, 0, Unread)
  const INIT := State(false, [], 0, 0, [], NOBODY)

  function Range(lo: nat, hi: nat): (r: seq<nat>)
    requires lo <= hi
    ensures |r| == hi - lo && forall k :: 0 <= k < |r| ==> r[k] == lo + k
  {
    seq(hi - lo, k requires 0 <= k < hi - lo => lo + k)
  }

  function Tail<T>(rows: seq<T>, limit: nat): seq<T> {
    if |rows| <= limit then rows else rows[|rows| - limit..]
  }

  predicate Enabled(s: State, step: Step) {
    match step
    case StreamCall => true
    case ReadLine(i) => Reads(s, i) && s.workers[i].batch < FLUSH_MAX_LINES
    case Insert(i, _) => Reads(s, i) && s.workers[i].batch > 0
    case PublishLine(i) => i < |s.workers| && s.workers[i].Running? && s.workers[i].pending != []
    case Finish(i) => Reads(s, i) && s.workers[i].batch == 0
    case CloseRun(i) => i < |s.workers| && s.workers[i].Leaving?
    case Subscribe => s.viewer.phase.Away?
    case ReadHistory(_) => s.viewer.phase.Subscribed?
    case Receive => s.viewer.phase.Watching? && s.viewer.buf != []
    case Leave => s.viewer.phase.Subscribed? || s.viewer.phase.Watching?
  }

  // The i-th goroutine is in its event loop, not inside a flush.
  predicate Reads(s: State, i: nat) {
    i < |s.workers| && s.workers[i].Running? && s.workers[i].pending == []
  }

  // One non-blocking send to the viewer's channel.
  function Hear(v: Viewer, n: nat): Viewer {
    if !v.registered then v
    else if |v.buf| < B.CHAN_BUFFER_SIZE then v.(buf := v.buf + [n], heard := n + 1)
    else if v.phase.Watching? then v.(dropped := v.dropped + {n}, heard := n + 1)
    else v.(heard := n + 1)
  }

  function Apply(s: State, step: Step): State
    requires Enabled(s, step)
  {
    match step
    case StreamCall =>
      if s.streaming then s else s.(streaming := true, workers := s.workers + [Running(0, [])])
    case ReadLine(i) =>
      s.(workers := s.workers[i := s.workers[i].(batch := s.workers[i].batch + 1)])
    case Insert(i, ok) =>
      var lines := Range(s.next, s.next + s.workers[i].batch);
      s.(workers := s.workers[i := Running(0, lines)],
         next := s.next + s.workers[i].batch,
         rows := if ok then s.rows + lines else s.rows)
    case PublishLine(i) =>
      var w := s.workers[i];
      s.(workers := s.workers[i := w.(pending := w.pending[1..])],
         published := s.published + 1,
         viewer := Hear(s.viewer, w.pending[0]))
    case Finish(i) => s.(streaming := false, workers := s.workers[i := Leaving])
    case CloseRun(i) =>
      s.(workers := s.workers[..i] + s.workers[i + 1..], viewer := s.viewer.(registered := false))
    case Subscribe => s.(viewer := s.viewer.(phase := Subscribed, registered := true, heard := s.published))
    case ReadHistory(ok) =>
      s.(viewer := s.viewer.(
        phase := Watching,
        replay := Replay(ok, if ok then Tail(s.rows, SSE_LOG_LIMIT) else [],
                         s.rows, s.next, s.published, s.viewer.buf)))
    case Receive =>
      s.(viewer := s.viewer.(live := s.viewer.live + [s.viewer.buf[0]], buf := s.viewer.buf[1..]))
    case Leave => s.(viewer := s.viewer.(phase := Gone, registered := false))
  }

  // --- The guard: one streamer at a time ------------------------------------------------------

  ghost predicate OneRunning(s: State) {
    && (forall i, j :: 0 <= i < j < |s.workers| ==> !(s.workers[i].Running? && s.workers[j].Running?))
    && (s.streaming <==> exists i :: 0 <= i < |s.workers| && s.workers[i].Running?)
  }

  // The streamer at work goes on.
  lemma GuardWhileRunning(s: State, t: State, i: nat)
    requires OneRunning(s) && i < |s.workers| && s.workers[i].Running?
    requires t.streaming == s.streaming && |t.workers| == |s.workers| && t.workers[i].Running?
    requires forall j :: 0 <= j < |s.workers| && j != i ==> t.workers[j] == s.workers[j]
    ensures OneRunning(t)
  {
  }

  lemma GuardAfterFinish(s: State, i: nat)
    requires OneRunning(s) && Enabled(s, Finish(i))
    ensures OneRunning(Apply(s, Finish(i)))
  {
    assert forall j :: 0 <= j < |s.workers| && j != i ==> !s.workers[j].Running?;
  }

  lemma GuardAfterClose(s: State, i: nat)
    requires OneRunning(s) && Enabled(s, CloseRun(i))
    ensures OneRunning(Apply(s, CloseRun(i)))
  {
    var t := Apply(s, CloseRun(i));
    if s.streaming {
      var k :| 0 <= k < |s.workers| && s.workers[k].Running?;
      assert t.workers[if k < i then k else k - 1] == s.workers[k];
    }
  }

  lemma GuardHolds(s: State, step: Step)
    requires OneRunning(s) && Enabled(s, step)
    ensures OneRunning(Apply(s, step))
  {
    var t := Apply(s, step);
    match step
    case StreamCall =>
      if !s.streaming {
        assert t.workers[|s.workers|].Running?;
      }
    case Finish(i) => GuardAfterFinish(s, i);
    case CloseRun(i) => GuardAfterClose(s, i);
    case ReadLine(i) => GuardWhileRunning(s, t, i);
    case Insert(i, _) => GuardWhileRunning(s, t, i);
    case PublishLine(i) => GuardWhileRunning(s, t, i);
    case _ =>
  }

  // --- Flushing and publishing ----------------------------------------------------------------

  ghost predicate Ascending(lines: seq<nat>) {
    forall i, j :: 0 <= i < j < |lines| ==> lines[i] < lines[j]
  }

  ghost predicate AllBelow(lines: seq<nat>, bound: nat) {
    forall n :: n in lines ==> n < bound
  }

  // What the one streamer has inserted and not published is exactly the end of what was flushed,
  // and at most one batch.
  ghost predicate Queue(s: State) {
    && s.published <= s.next <= s.published + FLUSH_MAX_LINES
    && (!s.streaming ==> s.published == s.next)
    && forall i :: 0 <= i < |s.workers| && s.workers[i].Running? ==>
         s.workers[i].batch <= FLUSH_MAX_LINES && s.workers[i].pending == Range(s.published, s.next)
  }

  ghost predicate Stored(s: State) {
    Ascending(s.rows) && AllBelow(s.rows, s.next)
  }

  lemma QueueKept(s: State, step: Step)
    requires OneRunning(s) && Queue(s) && Enabled(s, step)
    ensures Queue(Apply(s, step))
  {
    var t := Apply(s, step);
    match step
    case StreamCall =>
      if !s.streaming {
        assert Range(s.published, s.next) == [];
      }
    case Insert(i, _) =>
      assert s.published == s.next by { assert |Range(s.published, s.next)| == 0; }
    case PublishLine(i) =>
      assert |s.workers[i].pending| == s.next - s.published;
      assert s.workers[i].pending[1..] == Range(t.published, t.next);
    case Finish(i) =>
      assert |s.workers[i].pending| == s.next - s.published;
    case _ =>
  }

  lemma AscendingConcat(a: seq<nat>, b: seq<nat>, bound: nat)
    requires Ascending(a) && AllBelow(a, bound) && Ascending(b) && forall n :: n in b ==> bound <= n
    ensures Ascending(a + b)
  {
    assert forall i :: 0 <= i < |a| ==> a[i] in a;
    assert forall i :: 0 <= i < |b| ==> b[i] in b;
  }

  lemma StoredKept(s: State, step: Step)
    requires Queue(s) && Stored(s) && Enabled(s, step)
    ensures Stored(Apply(s, step))
    ensures s.rows <= Apply(s, step).rows && s.next <= Apply(s, step).next
    ensures forall n :: n in Apply(s, step).rows && n < s.next ==> n in s.rows
  {
    if step.Insert? {
      AscendingConcat(s.rows, Range(s.next, s.next + s.workers[step.i].batch), s.next);
    }
  }

  // --- The viewer -----------------------------------------------------------------------------

  function Delivered(v: Viewer): seq<nat> { v.live + v.buf }

  ghost predicate ChannelInOrder(s: State) {
    var v := s.viewer;
    && |v.buf| <= B.CHAN_BUFFER_SIZE
    && Ascending(Delivered(v)) && AllBelow(Delivered(v), v.heard)
    && v.heard <= s.published && (v.registered ==> v.heard == s.published)
  }

  ghost predicate Phases(v: Viewer) {
    && (v.phase.Away? ==> v == NOBODY)
    && (v.registered ==> v.phase.Subscribed? || v.phase.Watching?)
    && (v.phase.Subscribed? ==> v.replay.Unread?)
    && (v.phase.Watching? ==> v.replay.Replay?)
    && (v.replay.Unread? ==> v.live == [] && v.dropped == {})
  }

  // Everything queued when the replay was read and published since then was delivered or dropped,
  // and never both.
  ghost predicate NothingLostSince(v: Viewer)
    requires v.replay.Replay?
  {
    && (forall n :: n in v.replay.buf ==> n in Delivered(v))
    && (forall n :: v.replay.published <= n < v.heard ==> n in Delivered(v) || n in v.dropped)
    && (forall n :: n in v.dropped ==> v.replay.published <= n < v.heard && n !in Delivered(v))
  }

  ghost predicate ReplayFaithful(s: State) {
    var v := s.viewer;
    v.replay.Replay? ==>
      var r := v.replay;
      && r.hist == (if r.ok then Tail(r.rows, SSE_LOG_LIMIT) else []) && Ascending(r.rows) && AllBelow(r.rows, r.next)
      && (forall n :: n in s.rows && n < r.next ==> n in r.rows)
      && r.published <= r.next <= r.published + FLUSH_MAX_LINES && r.next <= s.next && r.published <= s.published
      && |r.buf| <= B.CHAN_BUFFER_SIZE
      && (forall n :: n in Delivered(v) ==> n in r.buf || r.published <= n)
      && NothingLostSince(v)
  }

  ghost predicate Inv(s: State) {
    OneRunning(s) && Queue(s) && Stored(s) && ChannelInOrder(s) && Phases(s.viewer) && ReplayFaithful(s)
  }

  lemma HearInOrder(s: State, n: nat)
    requires Inv(s) && n == s.published
    ensures var t := s.(published := s.published + 1, viewer := Hear(s.viewer, n));
            ChannelInOrder(t) && Phases(t.viewer)
    ensures s.viewer.replay.Replay? ==> NothingLostSince(Hear(s.viewer, n))
    ensures forall k :: k in Delivered(Hear(s.viewer, n)) ==> k in Delivered(s.viewer) || k == n
  {
    var v, w := s.viewer, Hear(s.viewer, n);
    if v.registered && |v.buf| < B.CHAN_BUFFER_SIZE {
      assert Delivered(w) == Delivered(v) + [n];
      AscendingConcat(Delivered(v), [n], n);
    } else {
      assert Delivered(w) == Delivered(v);
    }
  }

  lemma PublishKeepsInv(s: State, i: nat)
    requires Inv(s) && Enabled(s, PublishLine(i))
    ensures Inv(Apply(s, PublishLine(i)))
  {
    var step := PublishLine(i);
    GuardHolds(s, step);
    QueueKept(s, step);
    assert s.workers[i].pending[0] == s.published;
    HearInOrder(s, s.published);
  }

  lemma ViewerStepKeepsInv(s: State, step: Step)
    requires Inv(s) && Enabled(s, step)
    requires step.Subscribe? || step.ReadHistory? || step.Receive? || step.Leave?
    ensures Inv(Apply(s, step))
  {
    if step.Receive? {
      assert Delivered(Apply(s, step).viewer) == Delivered(s.viewer);
    }
  }

  lemma WorkerStepKeepsInv(s: State, step: Step)
    requires Inv(s) && Enabled(s, step)
    requires step.StreamCall? || step.ReadLine? || step.Insert? || step.Finish? || step.CloseRun?
    ensures Inv(Apply(s, step))
  {
    GuardHolds(s, step);
    QueueKept(s, step);
    StoredKept(s, step);
    assert Delivered(Apply(s, step).viewer) == Delivered(s.viewer);
  }

  lemma StepKeepsInv(s: State, step: Step)
    requires Inv(s) && Enabled(s, step)
    ensures Inv(Apply(s, step))
  {
    match step
    case PublishLine(i) => PublishKeepsInv(s, i);
    case Subscribe => ViewerStepKeepsInv(s, step);
    case ReadHistory(_) => ViewerStepKeepsInv(s, step);
    case Receive => ViewerStepKeepsInv(s, step);
    case Leave => ViewerStepKeepsInv(s, step);
    case _ => WorkerStepKeepsInv(s, step);
  }

  // --- Whole interleavings --------------------------------------------------------------------

  // The state a sequence of steps leads to, or nothing if one of them was not enabled.
  predicate Legal(s: State, steps: seq<Step>)
    decreases |steps|
  {
    steps == [] || (Enabled(s, steps[0]) && Legal(Apply(s, steps[0]), steps[1..]))
  }

  function Exec(s: State, steps: seq<Step>): State
    requires Legal(s, steps)
    decreases |steps|
  {
    if steps == [] then s else Exec(Apply(s, steps[0]), steps[1..])
  }

  lemma {:induction false} ExecKeepsInv(s: State, steps: seq<Step>)
    requires Inv(s) && Legal(s, steps)
    ensures Inv(Exec(s, steps))
    decreases |steps|
  {
    if steps != [] {
      StepKeepsInv(s, steps[0]);
      ExecKeepsInv(Apply(s, steps[0]), steps[1..]);
    }
  }

  lemma Reached(steps: seq<Step>)
    requires Legal(INIT, steps)
    ensures Inv(Exec(INIT, steps))
  {
    assert Delivered(NOBODY) == [];
    ExecKeepsInv(INIT, steps);
  }

  // --- Every line that is read is flushed -------------------------------------------------------

  function LinesRead(steps: seq<Step>): nat {
    if steps == [] then 0 else (if steps[0].ReadLine? then 1 else 0) + LinesRead(steps[1..])
  }

  // What the streamer at work, if there is one, has read and not flushed.
  ghost predicate Holds(s: State, batch: nat) {
    && (!s.streaming ==> batch == 0)
    && forall i :: 0 <= i < |s.workers| && s.workers[i].Running? ==> s.workers[i].batch == batch
  }

  lemma StepHolds(s: State, step: Step, batch: nat) returns (left: nat)
    requires OneRunning(s) && Holds(s, batch) && Enabled(s, step)
    ensures Holds(Apply(s, step), left)
    ensures Apply(s, step).next + left == s.next + batch + if step.ReadLine? then 1 else 0
  {
    match step
    case ReadLine(_) => left := batch + 1;
    case Insert(_, _) => left := 0;
    case Finish(_) => left := 0;
    case _ => left := batch;
  }

  lemma {:induction false} LinesHeld(s: State, steps: seq<Step>, batch: nat) returns (left: nat)
    requires OneRunning(s) && Holds(s, batch) && Legal(s, steps)
    ensures OneRunning(Exec(s, steps)) && Holds(Exec(s, steps), left)
    ensures Exec(s, steps).next + left == s.next + batch + LinesRead(steps)
    decreases |steps|
  {
    if steps == [] {
      left := batch;
    } else {
      var more := StepHolds(s, steps[0], batch);
      GuardHolds(s, steps[0]);
      left := LinesHeld(Apply(s, steps[0]), steps[1..], more);
    }
  }

  /** Whenever no streamer is at work, every line that any of them has read has been flushed, and its
      publication is over. */
  lemma ReadIsFlushed(steps: seq<Step>)
    requires Legal(INIT, steps) && !Exec(INIT, steps).streaming
    ensures Exec(INIT, steps).next == LinesRead(steps) == Exec(INIT, steps).published
  {
    Reached(steps);
    var left := LinesHeld(INIT, steps, 0);
  }

  lemma {:induction false} HistoryWasRead(s: State, steps: seq<Step>) returns (j: nat)
    requires Legal(s, steps) && s.viewer.replay.Unread? && Exec(s, steps).viewer.replay.Replay?
    ensures j < |steps| && steps[j].ReadHistory?
    decreases |steps|
  {
    if steps[0].ReadHistory? {
      j := 0;
    } else {
      var k := HistoryWasRead(Apply(s, steps[0]), steps[1..]);
      j := k + 1;
    }
  }

  /** The replay is never read before the viewer has subscribed. */
  lemma {:induction false} SubscribedBeforeReading(s: State, steps: seq<Step>) returns (i: nat, j: nat)
    requires Legal(s, steps) && s.viewer.phase.Away? && s.viewer.replay.Unread?
    requires Exec(s, steps).viewer.replay.Replay?
    ensures i < j < |steps| && steps[i].Subscribe? && steps[j].ReadHistory?
    decreases |steps|
  {
    if steps[0].Subscribe? {
      var k := HistoryWasRead(Apply(s, steps[0]), steps[1..]);
      i, j := 0, k + 1;
    } else {
      var h, k := SubscribedBeforeReading(Apply(s, steps[0]), steps[1..]);
      i, j := h + 1, k + 1;
    }
  }

  // --- Coverage ---------------------------------------------------------------------------------

  // A stored row the tail limit kept out of the replay.
  predicate CutFromTail(r: Replay, n: nat)
    requires r.Replay?
  {
    r.ok && n in r.rows && n !in r.hist
  }

  // The row is in the replay, older than its tail limit, delivered, or dropped on a full channel
  // after the reading.
  predicate Covered(v: Viewer, n: nat)
    requires v.replay.Replay?
  {
    n in v.replay.hist || CutFromTail(v.replay, n) || n in Delivered(v) || n in v.dropped
  }

  // The row was flushed before a reading that went well, queued at the reading, or published after
  // it while the viewer was registered.
  predicate InTime(v: Viewer, n: nat)
    requires v.replay.Replay?
  {
    (v.replay.ok && n < v.replay.next) || n in v.replay.buf || v.replay.published <= n < v.heard
  }

  lemma ReplayedIsStored(s: State, n: nat)
    requires Inv(s) && s.viewer.replay.Replay? && n in s.viewer.replay.hist
    ensures s.viewer.replay.ok && n in s.viewer.replay.rows && n < s.viewer.replay.next
  {
  }

  lemma DeliveredWhen(s: State, n: nat)
    requires Inv(s) && s.viewer.replay.Replay?
    ensures n in Delivered(s.viewer) || n in s.viewer.dropped <==>
            n in s.viewer.replay.buf || s.viewer.replay.published <= n < s.viewer.heard
  {
  }

  lemma CoveredIffInTime(s: State, n: nat)
    requires Inv(s) && s.viewer.replay.Replay? && n in s.rows
    ensures Covered(s.viewer, n) <==> InTime(s.viewer, n)
  {
    DeliveredWhen(s, n);
    if n in s.viewer.replay.hist {
      ReplayedIsStored(s, n);
    }
  }

  /** Exactly which stored rows a viewer gets, in every interleaving and even if the reading of the
      history failed: those that are in time. */
  lemma CoveredIff(steps: seq<Step>, n: nat)
    requires Legal(INIT, steps)
    requires var s := Exec(INIT, steps); s.viewer.replay.Replay? && n in s.rows
    ensures Covered(Exec(INIT, steps).viewer, n) <==> InTime(Exec(INIT, steps).viewer, n)
  {
    Reached(steps);
    CoveredIffInTime(Exec(INIT, steps), n);
  }

  /** No gap, in every interleaving: once the replay is read, a stored row is covered if and only if
      it was flushed before the reading or published while the viewer was registered. */
  lemma NoGap(steps: seq<Step>, n: nat)
    requires Legal(INIT, steps)
    requires var s := Exec(INIT, steps); s.viewer.replay.Replay? && s.viewer.replay.ok && n in s.rows
    ensures var v := Exec(INIT, steps).viewer; Covered(v, n) <==> n < v.replay.next || n < v.heard
  {
    Reached(steps);
    var s := Exec(INIT, steps);
    CoveredIffInTime(s, n);
    if n in s.viewer.replay.buf {
      assert n in Delivered(s.viewer);
    }
  }

  /** While the viewer is registered only the rows of one unpublished batch are still to come, and
      the tail limit cuts nothing from a log of up to 5000 lines. */
  lemma NoGapWhileRegistered(steps: seq<Step>, n: nat)
    requires Legal(INIT, steps)
    requires var s := Exec(INIT, steps);
             s.viewer.replay.Replay? && s.viewer.replay.ok && s.viewer.registered && n in s.rows
    ensures var s := Exec(INIT, steps);
            && (Covered(s.viewer, n) || s.published <= n < s.published + FLUSH_MAX_LINES)
            && (|s.viewer.replay.rows| <= SSE_LOG_LIMIT ==> !CutFromTail(s.viewer.replay, n))
  {
    Reached(steps);
    NoGap(steps, n);
  }

  /** Both parts of the output are in order, and losses are real: nothing dropped is also
      delivered. */
  lemma InOrder(steps: seq<Step>)
    requires Legal(INIT, steps)
    ensures var v := Exec(INIT, steps).viewer;
            && Ascending(v.live)
            && (v.replay.Replay? ==> Ascending(v.replay.hist) && forall n :: n in v.dropped ==> n !in v.live)
  {
    Reached(steps);
    var v := Exec(INIT, steps).viewer;
    assert forall k :: 0 <= k < |v.live| ==> v.live[k] == Delivered(v)[k];
  }

  function ToSet(lines: seq<nat>): set<nat> { set n | n in lines }

  // The lines a viewer is sent twice.
  function Overlap(v: Viewer): set<nat>
    requires v.replay.Replay?
  {
    ToSet(v.replay.hist) * ToSet(v.live)
  }

  lemma {:induction false} ToSetSize(lines: seq<nat>)
    ensures |ToSet(lines)| <= |lines|
  {
    if lines != [] {
      ToSetSize(lines[1..]);
      assert ToSet(lines) == {lines[0]} + ToSet(lines[1..]);
    } else {
      assert ToSet(lines) == {};
    }
  }

  /** At most 264 lines are sent twice: what the channel held when the replay was read, and the one
      batch that was inserted but not published. */
  lemma OverlapBounded(steps: seq<Step>)
    requires Legal(INIT, steps) && Exec(INIT, steps).viewer.replay.Replay?
    ensures |Overlap(Exec(INIT, steps).viewer)| <= B.CHAN_BUFFER_SIZE + FLUSH_MAX_LINES
  {
    Reached(steps);
    var v := Exec(INIT, steps).viewer;
    var r := v.replay;
    var queued, unpublished := ToSet(r.buf), ToSet(Range(r.published, r.next));
    ToSetSize(r.buf);
    ToSetSize(Range(r.published, r.next));
    forall n | n in Overlap(v)
      ensures n in queued + unpublished
    {
      assert n in Delivered(v) && n in r.rows;
      if r.published <= n {
        assert Range(r.published, r.next)[n - r.published] == n;
      }
    }
    assert Overlap(v) <= queued + unpublished;
    SubsetSmaller(Overlap(v), queued + unpublished);
  }

  lemma SubsetSmaller(a: set<nat>, b: set<nat>)
    requires a <= b
    ensures |a| <= |b|
  {
    assert b == a + (b - a);
  }

  /** The tail limit cuts the oldest: the replay holds the last 5000 stored rows, or all of them. */
  lemma TailCutsOldest(steps: seq<Step>, n: nat, m: nat)
    requires Legal(INIT, steps)
    requires var r := Exec(INIT, steps).viewer.replay; r.Replay? && r.ok
    ensures var r := Exec(INIT, steps).viewer.replay;
            && |r.hist| == (if |r.rows| <= 5000 then |r.rows| else 5000)
            && (CutFromTail(r, n) && m in r.hist ==> n < m)
  {
    Reached(steps);
    var r := Exec(INIT, steps).viewer.replay;
    if CutFromTail(r, n) && m in r.hist {
      var i :| 0 <= i < |r.rows| && r.rows[i] == n;
      var j :| 0 <= j < |r.hist| && r.hist[j] == m;
      assert r.hist[j] == r.rows[|r.rows| - |r.hist| + j];
    }
  }

  /** An insert that goes through stores exactly the lines of its batch, after all the others; one that
      fails stores none; either way they are counted as flushed, and are to be published. */
  lemma InsertEffect(s: State, i: nat, ok: bool)
    requires Enabled(s, Insert(i, ok)) && Stored(s)
    ensures var t := Apply(s, Insert(i, ok));
            && t.next == s.next + s.workers[i].batch && s.rows <= t.rows
            && (forall n :: n in t.rows <==> n in s.rows || (ok && s.next <= n < t.next))
            && |t.workers[i].pending| == s.workers[i].batch && t.workers[i].batch == 0
            && t.viewer == s.viewer && t.published == s.published
  {
    var lines := Range(s.next, s.next + s.workers[i].batch);
    forall n | s.next <= n < s.next + s.workers[i].batch
      ensures n in lines
    {
      assert lines[n - s.next] == n;
    }
  }

  /** A viewer that leaves is registered no more, and hears nothing from then on. */
  lemma LeaveEffect(steps: seq<Step>, more: seq<Step>)
    requires Legal(INIT, steps) && Enabled(Exec(INIT, steps), Leave)
    requires Legal(Apply(Exec(INIT, steps), Leave), more)
    ensures var s, u := Exec(INIT, steps).viewer, Exec(Apply(Exec(INIT, steps), Leave), more).viewer;
            !u.registered && u.heard == s.heard
  {
    Reached(steps);
    StepKeepsInv(Exec(INIT, steps), Leave);
    CutOffStays(Apply(Exec(INIT, steps), Leave), more);
  }

  // --- Lines sent twice, exactly ----------------------------------------------------------------

  // The row was queued when the replay was read, or published since and not dropped.
  predicate Repeated(v: Viewer, n: nat)
    requires v.replay.Replay?
  {
    n in v.replay.buf || (v.replay.published <= n < v.heard && n !in v.dropped)
  }

  /** A replayed line comes again, or is queued to, if and only if it was queued when the replay was
      read, or was published since and not dropped. */
  lemma RepeatedIff(steps: seq<Step>, n: nat)
    requires Legal(INIT, steps)
    requires var v := Exec(INIT, steps).viewer; v.replay.Replay? && n in v.replay.hist
    ensures var v := Exec(INIT, steps).viewer; n in Delivered(v) <==> Repeated(v, n)
  {
    Reached(steps);
    DeliveredWhen(Exec(INIT, steps), n);
  }

  ghost predicate Reaches(s: State, t: State) {
    exists steps :: Legal(s, steps) && Exec(s, steps) == t
  }

  // Steps other than the start of a streamer.
  predicate Quiet(steps: seq<Step>) {
    forall step :: step in steps ==> !step.StreamCall?
  }

  ghost predicate Leads(s: State, t: State) {
    exists steps :: Legal(s, steps) && Quiet(steps) && Exec(s, steps) == t
  }

  lemma LeadsNowhere(s: State)
    ensures Leads(s, s)
  {
    assert Legal(s, []) && Quiet([]) && Exec(s, []) == s;
  }

  lemma LeadsThen(s: State, t: State, step: Step)
    requires Leads(s, t) && Enabled(t, step) && !step.StreamCall?
    ensures Leads(s, Apply(t, step))
  {
    var steps :| Legal(s, steps) && Quiet(steps) && Exec(s, steps) == t;
    ExecOneMore(s, steps, step);
    assert Quiet(steps + [step]);
  }

  lemma {:induction false} ExecOneMore(s: State, steps: seq<Step>, step: Step)
    requires Legal(s, steps) && Enabled(Exec(s, steps), step)
    ensures Legal(s, steps + [step]) && Exec(s, steps + [step]) == Apply(Exec(s, steps), step)
    decreases |steps|
  {
    if steps == [] {
      assert (steps + [step])[1..] == [];
    } else {
      assert (steps + [step])[1..] == steps[1..] + [step];
      ExecOneMore(Apply(s, steps[0]), steps[1..], step);
    }
  }

  lemma {:induction false} ExecConcat(s: State, steps: seq<Step>, more: seq<Step>)
    requires Legal(s, steps) && Legal(Exec(s, steps), more)
    ensures Legal(s, steps + more) && Exec(s, steps + more) == Exec(Exec(s, steps), more)
    decreases |steps|
  {
    if steps == [] {
      assert steps + more == more;
    } else {
      assert (steps + more)[1..] == steps[1..] + more;
      ExecConcat(Apply(s, steps[0]), steps[1..], more);
    }
  }

  lemma ReceiveOne(s: State, t: State) returns (u: State)
    requires Leads(s, t) && Inv(t) && t.viewer.phase.Watching? && t.viewer.buf != []
    ensures Leads(s, u) && Inv(u)
    ensures u == t.(viewer := t.viewer.(live := t.viewer.live + [t.viewer.buf[0]], buf := t.viewer.buf[1..]))
  {
    LeadsThen(s, t, Receive);
    StepKeepsInv(t, Receive);
    u := Apply(t, Receive);
  }

  // Reading everything that is queued.
  lemma {:induction false} ReceiveAll(s: State, t: State) returns (u: State)
    requires Leads(s, t) && Inv(t) && t.viewer.phase.Watching?
    ensures Leads(s, u) && Inv(u)
    ensures u == t.(viewer := t.viewer.(live := t.viewer.live + t.viewer.buf, buf := []))
    decreases |t.viewer.buf|
  {
    if t.viewer.buf == [] {
      u := t;
      assert t.viewer.live + [] == t.viewer.live;
    } else {
      var v := ReceiveOne(s, t);
      u := ReceiveAll(s, v);
      MoveFirst(t.viewer.live, t.viewer.buf);
    }
  }

  lemma MoveFirst(live: seq<nat>, buf: seq<nat>)
    requires buf != []
    ensures live + [buf[0]] + buf[1..] == live + buf
  {
  }

  ghost predicate RunsAt(t: State, k: nat) {
    k < |t.workers| && t.workers[k].Running?
  }

  // One publication, read at once.
  lemma ReadNext(s: State, t: State, k: nat) returns (u: State)
    requires Leads(s, t) && Inv(t) && t.viewer.phase.Watching? && t.viewer.registered && t.viewer.buf == []
    requires RunsAt(t, k) && t.published < t.next
    ensures Leads(s, u) && Inv(u) && RunsAt(u, k) && u.published == t.published + 1 && u.next == t.next
    ensures u.viewer.phase.Watching? && u.viewer.registered && u.viewer.buf == []
    ensures u.viewer.replay == t.viewer.replay && t.published in u.viewer.live
  {
    var step := PublishLine(k);
    assert |Range(t.published, t.next)| > 0;
    LeadsThen(s, t, step);
    StepKeepsInv(t, step);
    var p := Apply(t, step);
    assert t.workers[k].pending[0] == t.published;
    assert p.viewer.buf == [t.published];
    u := ReceiveOne(s, p);
    assert u.viewer.live[|u.viewer.live| - 1] == t.published;
  }

  // A row that is still to be published can be read by a registered viewer.
  lemma {:induction false} ReadUpTo(s: State, t: State, k: nat, n: nat) returns (u: State)
    requires Leads(s, t) && Inv(t) && t.viewer.phase.Watching? && t.viewer.registered && t.viewer.buf == []
    requires RunsAt(t, k) && t.published <= n < t.next
    ensures Leads(s, u) && n in u.viewer.live && u.viewer.replay == t.viewer.replay
    decreases n - t.published
  {
    var v := ReadNext(s, t, k);
    if t.published == n {
      u := v;
    } else {
      u := ReadUpTo(s, v, k, n);
    }
  }

  // A viewer that has come and is no longer registered hears nothing any more.
  ghost predicate CutOff(s: State) {
    !s.viewer.phase.Away? && !s.viewer.registered
  }

  lemma StepKeepsCutOff(s: State, step: Step)
    requires Inv(s) && Enabled(s, step) && CutOff(s)
    ensures CutOff(Apply(s, step)) && Apply(s, step).viewer.heard == s.viewer.heard
    ensures s.viewer.replay.Replay? ==> Apply(s, step).viewer.replay == s.viewer.replay
  {
  }

  lemma {:induction false} CutOffStays(s: State, steps: seq<Step>)
    requires Legal(s, steps) && Inv(s) && CutOff(s)
    ensures CutOff(Exec(s, steps)) && Exec(s, steps).viewer.heard == s.viewer.heard
    ensures s.viewer.replay.Replay? ==> Exec(s, steps).viewer.replay == s.viewer.replay
    decreases |steps|
  {
    if steps != [] {
      StepKeepsInv(s, steps[0]);
      StepKeepsCutOff(s, steps[0]);
      CutOffStays(Apply(s, steps[0]), steps[1..]);
    }
  }

  lemma StepKeepsReplay(s: State, step: Step)
    requires Inv(s) && Enabled(s, step) && s.viewer.replay.Replay?
    ensures Apply(s, step).viewer.replay == s.viewer.replay
  {
  }

  lemma {:induction false} ReplayStays(s: State, steps: seq<Step>)
    requires Legal(s, steps) && s.viewer.replay.Replay? && Inv(s)
    ensures Exec(s, steps).viewer.replay == s.viewer.replay
    decreases |steps|
  {
    if steps != [] {
      StepKeepsInv(s, steps[0]);
      StepKeepsReplay(s, steps[0]);
      ReplayStays(Apply(s, steps[0]), steps[1..]);
    }
  }

  // What the viewer can see when it reads the replay: a replayed line that is queued, or one whose
  // publication it will hear.
  predicate Exposed(s: State, n: nat) {
    n in s.viewer.buf || (s.viewer.registered && s.published <= n < s.next)
  }

  ghost predicate CanRepeat(s: State, n: nat) {
    exists t :: Reaches(s, t) && Twice(t, n)
  }

  predicate Twice(t: State, n: nat) {
    t.viewer.replay.Replay? && n in t.viewer.replay.hist && n in t.viewer.live
  }

  lemma ExposedCanRepeat(steps: seq<Step>, n: nat)
    requires Legal(INIT, steps) && Exec(INIT, steps).viewer.phase.Subscribed?
    requires var t := Apply(Exec(INIT, steps), ReadHistory(true)); n in t.viewer.replay.hist && Exposed(t, n)
    ensures CanRepeat(Apply(Exec(INIT, steps), ReadHistory(true)), n)
  {
    Reached(steps);
    StepKeepsInv(Exec(INIT, steps), ReadHistory(true));
    var t := Apply(Exec(INIT, steps), ReadHistory(true));
    LeadsNowhere(t);
    var u := ReceiveAll(t, t);
    if n !in t.viewer.buf {
      var k :| 0 <= k < |u.workers| && u.workers[k].Running?;
      u := ReadUpTo(t, u, k, n);
    }
    var more :| Legal(t, more) && Quiet(more) && Exec(t, more) == u;
    assert Reaches(t, u) && Twice(u, n);
  }

  lemma RepeatWasExposed(steps: seq<Step>, n: nat, t: State)
    requires Legal(INIT, steps) && Exec(INIT, steps).viewer.phase.Subscribed?
    requires Reaches(Apply(Exec(INIT, steps), ReadHistory(true)), t) && Twice(t, n)
    ensures Exposed(Apply(Exec(INIT, steps), ReadHistory(true)), n)
    ensures n in Apply(Exec(INIT, steps), ReadHistory(true)).viewer.replay.hist
  {
    Reached(steps);
    var r := Apply(Exec(INIT, steps), ReadHistory(true));
    StepKeepsInv(Exec(INIT, steps), ReadHistory(true));
    var more :| Legal(r, more) && Exec(r, more) == t;
    ExecKeepsInv(r, more);
    ReplayStays(r, more);
    ReplayedIsStored(t, n);
    assert n in Delivered(t.viewer);
    DeliveredWhen(t, n);
    if !r.viewer.registered {
      CutOffStays(r, more);
    }
  }

  /** When the replay is read it is settled which of its lines can be sent twice: some way of going on,
      newly started streamers included, sends a line again if and only if it is queued, or it is still to
      be published and the viewer is registered.  So no line is ever sent twice exactly when the replay
      holds none of these. */
  lemma CanRepeatIff(steps: seq<Step>, n: nat)
    requires Legal(INIT, steps) && Exec(INIT, steps).viewer.phase.Subscribed?
    ensures var t := Apply(Exec(INIT, steps), ReadHistory(true));
            CanRepeat(t, n) <==> n in t.viewer.replay.hist && Exposed(t, n)
  {
    var t := Apply(Exec(INIT, steps), ReadHistory(true));
    if CanRepeat(t, n) {
      var u :| Reaches(t, u) && Twice(u, n);
      RepeatWasExposed(steps, n, u);
    }
    if n in t.viewer.replay.hist && Exposed(t, n) {
      ExposedCanRepeat(steps, n);
    }
  }

  // --- A close, exactly -------------------------------------------------------------------------

  /** After a close, whatever happens next, the viewer that it cut off, be it before or after its replay
      was read, gets a stored row if and only if the row was flushed before the replay was read or
      published before the close. */
  lemma AfterCloseIff(steps: seq<Step>, i: nat, more: seq<Step>, n: nat)
    requires Legal(INIT, steps) && Enabled(Exec(INIT, steps), CloseRun(i)) && Exec(INIT, steps).viewer.registered
    requires Legal(Apply(Exec(INIT, steps), CloseRun(i)), more)
    requires var u := Exec(Apply(Exec(INIT, steps), CloseRun(i)), more);
             u.viewer.replay.Replay? && u.viewer.replay.ok && n in u.rows
    ensures var s, u := Exec(INIT, steps), Exec(Apply(Exec(INIT, steps), CloseRun(i)), more);
            Covered(u.viewer, n) <==> n < u.viewer.replay.next || n < s.published
  {
    Reached(steps);
    var s := Exec(INIT, steps);
    var t := Apply(s, CloseRun(i));
    StepKeepsInv(s, CloseRun(i));
    CutOffStays(t, more);
    ExecOneMore(INIT, steps, CloseRun(i));
    ExecConcat(INIT, steps + [CloseRun(i)], more);
    NoGap(steps + [CloseRun(i)] + more, n);
  }

  // Without a streamer, and none started, nothing more is flushed.
  lemma {:induction false} NothingFlushed(s: State, steps: seq<Step>)
    requires Legal(s, steps) && Quiet(steps) && Inv(s) && !s.streaming
    ensures var t := Exec(s, steps); !t.streaming && t.next == s.next && t.rows == s.rows
    decreases |steps|
  {
    if steps != [] {
      assert steps[0] in steps && forall step :: step in steps[1..] ==> step in steps;
      StepKeepsInv(s, steps[0]);
      NothingFlushed(Apply(s, steps[0]), steps[1..]);
    }
  }

  // The viewer has read its replay and lacks a stored row.
  ghost predicate Misses(t: State) {
    t.viewer.replay.Replay? && t.viewer.replay.ok && exists n :: n in t.rows && !Covered(t.viewer, n)
  }

  // The viewer is registered, and its replay has not been read, or has been read without a failure.
  predicate Following(s: State) {
    s.viewer.registered && (s.viewer.replay.Replay? ==> s.viewer.replay.ok)
  }

  // The close can make the viewer miss a row although no further streamer starts.
  ghost predicate CloseCutsOff(s: State, i: nat)
    requires Enabled(s, CloseRun(i))
  {
    exists t :: Leads(Apply(s, CloseRun(i)), t) && Misses(t)
  }

  lemma {:induction false} PublishRest(s: State, t: State, k: nat) returns (u: State)
    requires Leads(s, t) && RunsAt(t, k) && !t.viewer.registered
    ensures Leads(s, u) && RunsAt(u, k) && u.workers[k] == Running(t.workers[k].batch, [])
    ensures u.viewer == t.viewer && u.next == t.next
    decreases |t.workers[k].pending|
  {
    if t.workers[k].pending == [] {
      u := t;
    } else {
      LeadsThen(s, t, PublishLine(k));
      u := PublishRest(s, Apply(t, PublishLine(k)), k);
    }
  }

  // A streamer can always flush one more batch.
  lemma FlushOnce(s: State, t: State, k: nat) returns (u: State)
    requires Leads(s, t) && RunsAt(t, k) && !t.viewer.registered
    ensures Leads(s, u) && u.viewer == t.viewer && t.next in u.rows
  {
    u := PublishRest(s, t, k);
    if u.workers[k].batch == 0 {
      LeadsThen(s, u, ReadLine(k));
      u := Apply(u, ReadLine(k));
    }
    LeadsThen(s, u, Insert(k, true));
    var lines := Range(u.next, u.next + u.workers[k].batch);
    assert lines[0] == t.next;
    u := Apply(u, Insert(k, true));
    assert lines[0] in u.rows;
  }

  /** A close cuts a viewer off, before or after its replay is read, if and only if a newer streamer is
      at work by then: with none, the viewer is served every row that is stored, and no further row
      comes. */
  lemma CloseCutsOffIff(steps: seq<Step>, i: nat)
    requires Legal(INIT, steps) && Enabled(Exec(INIT, steps), CloseRun(i)) && Following(Exec(INIT, steps))
    ensures CloseCutsOff(Exec(INIT, steps), i) <==> Exec(INIT, steps).streaming
  {
    var s := Exec(INIT, steps);
    if s.streaming {
      NewerStreamerCutsOff(steps, i);
    }
    forall t | !s.streaming && Leads(Apply(s, CloseRun(i)), t)
      ensures !Misses(t)
    {
      LastCloseServesAll(steps, i, t);
    }
  }

  // A viewer that is cut off can have read its replay before anything else happens.
  lemma ReadIfUnread(s: State) returns (t: State)
    requires Inv(s) && CutOff(s) && (s.viewer.phase.Subscribed? || s.viewer.phase.Watching?)
    requires s.viewer.replay.Replay? ==> s.viewer.replay.ok && s.viewer.replay.next <= s.next
    ensures Leads(s, t) && CutOff(t) && t.workers == s.workers && t.next == s.next
    ensures t.viewer.replay.Replay? && t.viewer.replay.ok && t.viewer.replay.next <= s.next
  {
    LeadsNowhere(s);
    if s.viewer.phase.Subscribed? {
      LeadsThen(s, s, ReadHistory(true));
      t := Apply(s, ReadHistory(true));
    } else {
      t := s;
    }
  }

  lemma NewerStreamerCutsOff(steps: seq<Step>, i: nat)
    requires Legal(INIT, steps) && Enabled(Exec(INIT, steps), CloseRun(i)) && Following(Exec(INIT, steps))
    requires Exec(INIT, steps).streaming
    ensures CloseCutsOff(Exec(INIT, steps), i)
  {
    Reached(steps);
    var s := Exec(INIT, steps);
    var t := Apply(s, CloseRun(i));
    StepKeepsInv(s, CloseRun(i));
    var k :| 0 <= k < |t.workers| && t.workers[k].Running?;
    var read := ReadIfUnread(t);
    var u := FlushOnce(t, read, k);
    var more :| Legal(t, more) && Quiet(more) && Exec(t, more) == u;
    AfterCloseIff(steps, i, more, s.next);
    assert s.next in u.rows && !Covered(u.viewer, s.next);
  }

  /** When the last streamer of the run closes it and no other starts, a viewer registered until then
      has, once its replay is read, been served every stored row. */
  lemma LastCloseServesAll(steps: seq<Step>, i: nat, t: State)
    requires Legal(INIT, steps) && Enabled(Exec(INIT, steps), CloseRun(i)) && Exec(INIT, steps).viewer.registered
    requires !Exec(INIT, steps).streaming && Leads(Apply(Exec(INIT, steps), CloseRun(i)), t)
    ensures t.viewer.replay.Replay? && t.viewer.replay.ok ==> forall n :: n in t.rows ==> Covered(t.viewer, n)
  {
    Reached(steps);
    var s := Exec(INIT, steps);
    var closed := Apply(s, CloseRun(i));
    StepKeepsInv(s, CloseRun(i));
    var more :| Legal(closed, more) && Quiet(more) && Exec(closed, more) == t;
    NothingFlushed(closed, more);
    if t.viewer.replay.Replay? && t.viewer.replay.ok {
      forall n | n in t.rows
        ensures Covered(t.viewer, n)
      {
        AfterCloseIff(steps, i, more, n);
      }
    }
  }

  // --- What does not hold ---------------------------------------------------------------------

  lemma Stay() returns (s: State)
    ensures s == INIT && Reaches(INIT, s)
  {
    s := INIT;
    assert Legal(INIT, []) && Exec(INIT, []) == INIT;
  }

  lemma Then(t: State, step: Step) returns (u: State)
    requires Reaches(INIT, t) && Enabled(t, step)
    ensures Reaches(INIT, u) && u == Apply(t, step)
  {
    var steps :| Legal(INIT, steps) && Exec(INIT, steps) == t;
    ExecOneMore(INIT, steps, step);
    u := Apply(t, step);
  }

  // One line stored, and the replay read before it is published.
  lemma InsertedAndRead() returns (s: State)
    ensures Reaches(INIT, s)
    ensures s == State(true, [Running(0, [0])], 1, 0, [0],
            Viewer(Watching, true, [], [], {}, 0, Replay(true, [0], [0], 1, 0, [])))
  {
    s := Stay();
    s := Then(s, StreamCall);
    s := Then(s, ReadLine(0));
    assert s.workers == [Running(1, [])] && Range(0, 1) == [0];
    s := Then(s, Insert(0, true));
    assert s.workers == [Running(0, [0])] && s.rows == [0];
    s := Then(s, Subscribe);
    s := Then(s, ReadHistory(true));
  }

  /** The replay and the live part can repeat a line: it is enough that the viewer subscribes
      between the insert and the publication. */
  lemma DuplicatePossible() returns (s: State)
    ensures Reaches(INIT, s) && s.viewer.replay.Replay? && Overlap(s.viewer) == {0}
  {
    s := InsertedAndRead();
    s := Then(s, PublishLine(0));
    s := Then(s, Receive);
    assert s.viewer.live == [0] && s.viewer.replay.hist == [0];
  }

  // A newer streamer at work, and a viewer cut off by the close of the older one.
  lemma CutOffByOlder() returns (s: State)
    ensures Reaches(INIT, s)
    ensures s == State(true, [Running(0, [])], 0, 0, [],
            Viewer(Watching, false, [], [], {}, 0, Replay(true, [], [], 0, 0, [])))
  {
    s := Stay();
    s := Then(s, StreamCall);
    s := Then(s, Finish(0));
    s := Then(s, StreamCall);
    s := Then(s, Subscribe);
    s := Then(s, ReadHistory(true));
    s := Then(s, CloseRun(0));
  }

  /** Stream drops its guard entry before it closes the channels, so a new streamer can start in
      between; the late close then silences it: the viewer is cut off and misses a stored row. */
  lemma LateCloseSilences() returns (s: State)
    ensures Reaches(INIT, s) && s.streaming && s.viewer.phase.Watching? && 0 in s.rows && s.published == s.next
    ensures var v := s.viewer;
            v.replay.Replay? && 0 !in v.replay.hist && 0 !in Delivered(v) && 0 !in v.dropped && v.replay.rows == []
  {
    s := CutOffByOlder();
    s := Then(s, ReadLine(0));
    s := Then(s, Insert(0, true));
    s := Then(s, PublishLine(0));
    assert s.rows[0] == 0;
  }

  // --- The overlap bound is attained ----------------------------------------------------------

  lemma {:induction false} ReadMany(t: State, k: nat) returns (u: State)
    requires Reaches(INIT, t) && |t.workers| == 1 && t.workers[0].Running? && t.workers[0].pending == []
    requires t.workers[0].batch + k <= FLUSH_MAX_LINES
    ensures Reaches(INIT, u) && u == t.(workers := [Running(t.workers[0].batch + k, [])])
  {
    if k == 0 {
      u := t;
      assert t.workers == [t.workers[0]];
    } else {
      u := ReadMany(t, k - 1);
      u := Then(u, ReadLine(0));
    }
  }

  ghost predicate Unpublished(t: State, hi: nat) {
    t.published <= hi && t.workers == [Running(0, Range(t.published, hi))]
  }

  ghost predicate SameStore(t: State, u: State) {
    t.streaming == u.streaming && t.next == u.next && t.rows == u.rows
  }

  lemma RangeSnoc(lo: nat, hi: nat)
    requires lo <= hi
    ensures Range(lo, hi + 1) == Range(lo, hi) + [hi]
  {
  }

  lemma PublishNext(t: State, hi: nat) returns (u: State)
    requires Reaches(INIT, t) && Unpublished(t, hi) && t.published < hi
    ensures Reaches(INIT, u) && Unpublished(u, hi) && SameStore(t, u)
    ensures u.published == t.published + 1 && u.viewer == Hear(t.viewer, t.published)
  {
    u := Then(t, PublishLine(0));
    assert Range(t.published, hi)[1..] == Range(t.published + 1, hi);
  }

  function Min(a: nat, b: nat): nat { if a < b then a else b }

  // Publications to a subscriber that has not read the replay yet: the first 64 stay.
  lemma {:induction false} PublishMany(t: State, hi: nat, k: nat) returns (u: State)
    requires Reaches(INIT, t) && Unpublished(t, hi) && t.published + k <= hi
    requires t.viewer.registered && t.viewer.phase.Subscribed? && t.viewer.buf == [] && t.viewer.heard == t.published
    ensures Reaches(INIT, u) && Unpublished(u, hi) && SameStore(t, u)
    ensures u.published == t.published + k
    ensures u.viewer == t.viewer.(buf := Range(t.published, t.published + Min(k, B.CHAN_BUFFER_SIZE)),
                                  heard := t.published + k)
  {
    if k == 0 {
      u := t;
    } else {
      u := PublishMany(t, hi, k - 1);
      u := PublishNext(u, hi);
      RangeSnoc(t.published, t.published + Min(k - 1, B.CHAN_BUFFER_SIZE));
    }
  }

  lemma {:induction false} ReceiveMany(t: State, k: nat) returns (u: State)
    requires Reaches(INIT, t) && t.viewer.phase.Watching? && k <= |t.viewer.buf|
    ensures Reaches(INIT, u)
    ensures u == t.(viewer := t.viewer.(live := t.viewer.live + t.viewer.buf[..k], buf := t.viewer.buf[k..]))
  {
    if k == 0 {
      u := t;
    } else {
      u := ReceiveMany(t, k - 1);
      u := Then(u, Receive);
      assert t.viewer.buf[..k] == t.viewer.buf[..k - 1] + [t.viewer.buf[k - 1]];
    }
  }

  // A publication that the viewer receives at once.
  lemma Echo(t: State, hi: nat) returns (u: State)
    requires Reaches(INIT, t) && Unpublished(t, hi) && t.published < hi
    requires t.viewer.registered && t.viewer.phase.Watching? && t.viewer.buf == []
    ensures Reaches(INIT, u) && Unpublished(u, hi) && u.published == t.published + 1
    ensures u.viewer == t.viewer.(live := t.viewer.live + [t.published], heard := t.published + 1)
  {
    u := PublishNext(t, hi);
    u := Then(u, Receive);
  }

  lemma {:induction false} EchoMany(t: State, hi: nat, k: nat) returns (u: State)
    requires Reaches(INIT, t) && Unpublished(t, hi) && t.published + k <= hi
    requires t.viewer.registered && t.viewer.phase.Watching? && t.viewer.buf == []
    ensures Reaches(INIT, u) && Unpublished(u, hi) && u.published == t.published + k
    ensures u.viewer == t.viewer.(live := t.viewer.live + Range(t.published, t.published + k), heard := u.viewer.heard)
  {
    if k == 0 {
      u := t;
    } else {
      u := EchoMany(t, hi, k - 1);
      u := Echo(u, hi);
      RangeSnoc(t.published, t.published + k - 1);
    }
  }

  lemma {:induction false} AscendingSize(lines: seq<nat>)
    requires Ascending(lines)
    ensures |ToSet(lines)| == |lines|
  {
    if lines != [] {
      AscendingSize(lines[1..]);
      assert ToSet(lines) == {lines[0]} + ToSet(lines[1..]);
      assert forall k :: 0 <= k < |lines| - 1 ==> lines[1..][k] == lines[k + 1];
    } else {
      assert ToSet(lines) == {};
    }
  }

  // One full batch published to a channel that nobody drains.
  lemma FullBatch() returns (s: State)
    ensures Reaches(INIT, s)
    ensures s == State(true, [Running(200, [])], 0, 0, [], Viewer(Subscribed, true, [], [], {}, 0, Unread))
  {
    s := Stay();
    s := Then(s, Subscribe);
    s := Then(s, StreamCall);
    s := ReadMany(s, 200);
  }

  lemma FullChannel() returns (s: State)
    ensures Reaches(INIT, s) && s.streaming && s.workers == [Running(0, [])]
    ensures s.next == 200 && s.published == 200 && s.rows == Range(0, 200)
    ensures s.viewer == Viewer(Subscribed, true, Range(0, 64), [], {}, 200, Unread)
  {
    s := FullBatch();
    s := Then(s, Insert(0, true));
    s := PublishMany(s, 200, 200);
    assert Range(200, 200) == [];
  }

  // ... then a second one inserted, and the replay read.
  lemma FullChannelFullBatch() returns (s: State)
    ensures Reaches(INIT, s) && Unpublished(s, 400) && s.published == 200
    ensures s.viewer.registered && s.viewer.phase.Watching? && s.viewer.live == []
    ensures s.viewer.buf == Range(0, 64)
    ensures s.viewer.replay.Replay? && s.viewer.replay.hist == Range(0, 200) + Range(200, 400)
  {
    s := FullChannel();
    s := ReadMany(s, 200);
    s := Then(s, Insert(0, true));
    s := Then(s, ReadHistory(true));
  }

  /** Some interleaving repeats exactly 264 lines. */
  lemma OverlapAttained() returns (s: State)
    ensures Reaches(INIT, s) && s.viewer.replay.Replay?
    ensures |Overlap(s.viewer)| == B.CHAN_BUFFER_SIZE + FLUSH_MAX_LINES
  {
    s := FullChannelFullBatch();
    var hist := s.viewer.replay.hist;
    s := ReceiveMany(s, 64);
    assert Range(0, 64)[..64] == Range(0, 64) && Range(0, 64)[64..] == [];
    s := EchoMany(s, 400, 200);
    var live := s.viewer.live;
    assert live == Range(0, 64) + Range(200, 400);
    AscendingSize(live);
    forall n | n in live
      ensures n in hist
    {
      assert (Range(0, 200) + Range(200, 400))[n] == n;
    }
    assert Overlap(s.viewer) == ToSet(live);
  }
}
