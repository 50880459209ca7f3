/** The request handler that replays a run's log and follows it: what it writes, in which order, and
    when it ends. */
module StreamHandler {
  import opened Common
  import opened Store

  // How long it waits for the final status once the log stream has closed, in nanoseconds.
  const GRACE: int := 5_000_000_000

  datatype Lookup = LookupFailed | Missing | Row(status: Status)

  // One case of the select, as it fires.  `row` is what the tick reads back, if it can.
  datatype Fired = Received(line: string) | ChannelClosed(at: int) | Ticked(now: int, row: Option<Status>) | ContextDone

  datatype Output = Data(line: string) | StatusEvent(status: Status) | Done

  datatype Reply = InternalError | NotFound | Stream(out: seq<Output>)

  // --- Reading the fired cases ------------------------------------------------------------------

  predicate ClosedLongAgo(fired: seq<Fired>, now: int) {
    exists i :: 0 <= i < |fired| && LongAgo(fired[i], now)
  }

  predicate LongAgo(f: Fired, now: int) { f.ChannelClosed? && now - f.at > GRACE }

  // The k-th case ends the stream.
  predicate Ends(fired: seq<Fired>, k: nat)
    requires k < |fired|
  {
    || fired[k].ContextDone?
    || (fired[k].Ticked? && fired[k].row.Some? &&
       (fired[k].row.value != Running || ClosedLongAgo(fired[..k], fired[k].now)))
  }

  // A nil channel blocks for ever, so nothing comes from it once it has closed.
  ghost predicate Selectable(fired: seq<Fired>) {
    forall i, j :: 0 <= i < j < |fired| && fired[i].ChannelClosed? ==> !fired[j].Received? && !fired[j].ChannelClosed?
  }

  function Written(f: Fired): seq<Output> {
    match f
    case Received(line) => [Data(line)]
    case Ticked(_, Some(status)) => [StatusEvent(status)]
    case _ => []
  }

  function AllWritten(fired: seq<Fired>): seq<Output> {
    if fired == [] then [] else AllWritten(fired[..|fired| - 1]) + Written(fired[|fired| - 1])
  }

  function AllData(lines: seq<string>): seq<Output> {
    seq(|lines|, i requires 0 <= i < |lines| => Data(lines[i]))
  }

  method Replay(lines: seq<string>) returns (out: seq<Output>)
    ensures out == AllData(lines)
  {
    out := [];
    for i := 0 to |lines|
      invariant out == AllData(lines[..i])
    {
      out := out + [Data(lines[i])];
    }
  }

  // The end of an output, after the history and the cases before the stop.
  function Ending(fired: seq<Fired>, stop: nat): seq<Output>
    requires stop <= |fired|
  {
    if stop < |fired| && fired[stop].Ticked? then Written(fired[stop]) + [Done] else []
  }

  // What one run of the loop writes when it stops at the case `stop`, or has not stopped yet.
  function Followed(history: seq<string>, fired: seq<Fired>, stop: nat): seq<Output>
    requires stop <= |fired|
  {
    [StatusEvent(Running)] + AllData(history) + AllWritten(fired[..stop]) + Ending(fired, stop)
  }

  /** Answers a request for the stream of a run.  `history` is what it reads from the store, after it
      has subscribed when the run is running. */
  method StreamLogs(lookup: Lookup, history: seq<string>, fired: seq<Fired>) returns (reply: Reply, stop: nat)
    requires Selectable(fired)
    ensures lookup.LookupFailed? ==> reply == InternalError
    ensures lookup.Missing? ==> reply == NotFound
    ensures lookup.Row? && lookup.status != Running ==>
            reply == Stream([StatusEvent(lookup.status)] + AllData(history) + [Done])
    ensures lookup == Row(Running) ==>
              && stop <= |fired| && (forall k :: 0 <= k < stop ==> !Ends(fired, k)) &&
                 (stop < |fired| ==> Ends(fired, stop))
              && reply == Stream(Followed(history, fired, stop))
  {
    stop := 0;
    if lookup.LookupFailed? {
      return InternalError, stop;
    }
    if lookup.Missing? {
      return NotFound, stop;
    }
    var replayed := Replay(history);
    var out := [StatusEvent(lookup.status)] + replayed;
    if lookup.status != Running {
      return Stream(out + [Done]), stop;
    }
    var followed;
    followed, stop := Follow(fired);
    reply := Stream(out + followed);
  }

  // The loop, until a case ends it.
  method Follow(fired: seq<Fired>) returns (out: seq<Output>, stop: nat)
    requires Selectable(fired)
    ensures stop <= |fired| && (forall k :: 0 <= k < stop ==> !Ends(fired, k)) && (stop < |fired| ==> Ends(fired, stop))
    ensures out == AllWritten(fired[..stop]) + Ending(fired, stop)
  {
    out := [];
    var open, broadcastDone, broadcastAt := true, false, 0;
    for i := 0 to |fired|
      invariant forall k :: 0 <= k < i ==> !Ends(fired, k)
      invariant out == AllWritten(fired[..i])
      invariant open == !broadcastDone && ClosedAt(fired[..i], broadcastDone, broadcastAt)
    {
      Snoc(fired, i, broadcastDone, broadcastAt);
      match fired[i]
      case Received(line) =>
        assert open;
        out := out + [Data(line)];
      case ChannelClosed(at) =>
        assert open;
        open, broadcastDone, broadcastAt := false, true, at;
      case Ticked(now, row) =>
        if row.Some? {
          out := out + [StatusEvent(row.value)];
          if row.value != Running || (broadcastDone && now - broadcastAt > GRACE) {
            stop := i;
            return out + [Done], stop;
          }
        }
      case ContextDone =>
        stop := i;
        return out, stop;
    }
    assert fired[..|fired|] == fired;
    stop := |fired|;
  }

  // The two loop variables say whether and when the channel closed.
  ghost predicate ClosedAt(fired: seq<Fired>, done: bool, at: int) {
    && (done ==> ChannelClosed(at) in fired)
    && (forall f :: f in fired && f.ChannelClosed? ==> done && f.at == at)
  }

  // One more case, against the loop variables.
  lemma Snoc(fired: seq<Fired>, i: nat, done: bool, at: int)
    requires Selectable(fired) && i < |fired| && ClosedAt(fired[..i], done, at)
    ensures AllWritten(fired[..i + 1]) == AllWritten(fired[..i]) + Written(fired[i])
    ensures fired[i].Received? || fired[i].ChannelClosed? ==> !done
    ensures ClosedAt(fired[..i + 1], done || fired[i].ChannelClosed?,
                     if fired[i].ChannelClosed? then fired[i].at else at)
    ensures fired[i].Ticked? ==> (ClosedLongAgo(fired[..i], fired[i].now) <==> done && fired[i].now - at > GRACE)
  {
    assert fired[..i + 1][..i] == fired[..i];
    assert fired[..i + 1] == fired[..i] + [fired[i]];
    if done {
      var j :| 0 <= j < i && fired[..i][j] == ChannelClosed(at);
      assert fired[j].ChannelClosed?;
      assert fired[i].Ticked? && fired[i].now - at > GRACE ==> LongAgo(fired[..i][j], fired[i].now);
    }
  }

  // --- What a client gets -----------------------------------------------------------------------

  // The data lines of an output, in order.
  function Lines(out: seq<Output>): seq<string> {
    if out == [] then [] else (if out[0].Data? then [out[0].line] else []) + Lines(out[1..])
  }

  function ReceivedLines(fired: seq<Fired>): seq<string> {
    if fired == [] then [] else ReceivedLines(fired[..|fired| - 1]) + if fired[|fired| - 1].Received?
      then [fired[|fired| - 1].line] else []
  }

  lemma {:induction false} LinesConcat(a: seq<Output>, b: seq<Output>)
    ensures Lines(a + b) == Lines(a) + Lines(b)
  {
    if a == [] {
      assert a + b == b;
    } else {
      assert (a + b)[1..] == a[1..] + b;
      LinesConcat(a[1..], b);
    }
  }

  lemma {:induction false} LinesOfData(lines: seq<string>)
    ensures Lines(AllData(lines)) == lines
  {
    if lines != [] {
      assert AllData(lines)[1..] == AllData(lines[1..]);
      LinesOfData(lines[1..]);
    }
  }

  lemma {:induction false} LinesWritten(fired: seq<Fired>)
    ensures Lines(AllWritten(fired)) == ReceivedLines(fired)
  {
    if fired != [] {
      var last := fired[|fired| - 1];
      LinesWritten(fired[..|fired| - 1]);
      LinesConcat(AllWritten(fired[..|fired| - 1]), Written(last));
      assert Written(last) != [] ==> Written(last)[1..] == [];
    }
  }

  lemma {:induction false} NoDoneWritten(fired: seq<Fired>)
    ensures Done !in AllWritten(fired)
  {
    if fired != [] {
      NoDoneWritten(fired[..|fired| - 1]);
    }
  }

  lemma EndingLines(fired: seq<Fired>, stop: nat)
    requires stop <= |fired|
    ensures Lines(Ending(fired, stop)) == []
  {
    if stop < |fired| && fired[stop].Ticked? {
      LinesConcat(Written(fired[stop]), [Done]);
      assert Written(fired[stop]) != [] ==> Written(fired[stop])[1..] == [];
      assert [Done][1..] == [];
    }
  }

  lemma LinesOfStatus(status: Status)
    ensures Lines([StatusEvent(status)]) == []
  {
    assert [StatusEvent(status)][1..] == [];
  }

  lemma LinesOfFour(a: seq<Output>, b: seq<Output>, c: seq<Output>, d: seq<Output>, first: seq<string>,
                    second: seq<string>)
    requires Lines(a) == [] && Lines(b) == first && Lines(c) == second && Lines(d) == []
    ensures Lines(a + b + c + d) == first + second
  {
    LinesConcat(a, b);
    LinesConcat(a + b, c);
    LinesConcat(a + b + c, d);
  }

  /** The data a client gets is the replayed history and then every line received before the stop, in
      the order received, nothing else and nothing left out. */
  lemma ClientGetsHistoryThenLive(history: seq<string>, fired: seq<Fired>, stop: nat)
    requires stop <= |fired|
    ensures Lines(Followed(history, fired, stop)) == history + ReceivedLines(fired[..stop])
  {
    LinesOfStatus(Running);
    LinesOfData(history);
    LinesWritten(fired[..stop]);
    EndingLines(fired, stop);
    LinesOfFour([StatusEvent(Running)], AllData(history), AllWritten(fired[..stop]), Ending(fired, stop),
                history, ReceivedLines(fired[..stop]));
  }

  /** "done" is written once and last, and only when the stop is a tick: one that read a final status,
      or one more than five seconds after the log stream closed.  A client that goes away gets none. */
  lemma DoneIsLast(history: seq<string>, fired: seq<Fired>, stop: nat)
    requires stop <= |fired| && (stop < |fired| ==> Ends(fired, stop))
    ensures var out := Followed(history, fired, stop);
            && (Done in out <==> stop < |fired| && fired[stop].Ticked?)
            && (Done in out ==> out[|out| - 1] == Done && Done !in out[..|out| - 1])
  {
    NoDoneWritten(fired[..stop]);
    var out := Followed(history, fired, stop);
    if stop < |fired| && fired[stop].Ticked? {
      assert out[..|out| - 1] ==
             [StatusEvent(Running)] + AllData(history) + AllWritten(fired[..stop]) + Written(fired[stop]);
    }
  }

  /** Once the log stream has closed, the loop goes no further than the first tick that is more than
      five seconds later and can read the run, whatever the status; and unless the client goes away
      first, it has written "done" by then. */
  lemma CloseBoundsTheStream(history: seq<string>, fired: seq<Fired>, stop: nat, closed: nat, tick: nat)
    requires stop <= |fired| && (forall k :: 0 <= k < stop ==> !Ends(fired, k)) &&
             (stop < |fired| ==> Ends(fired, stop))
    requires closed < tick < |fired| && fired[closed].ChannelClosed? && fired[tick].Ticked? && fired[tick].row.Some?
    requires fired[tick].now - fired[closed].at > GRACE
    ensures stop <= tick
    ensures ContextDone !in fired[..tick] ==> Done in Followed(history, fired, stop)
  {
    assert LongAgo(fired[..tick][closed], fired[tick].now);
    assert Ends(fired, tick);
    DoneIsLast(history, fired, stop);
    assert stop < tick ==> fired[stop] in fired[..tick];
  }

  // --- Statuses -----------------------------------------------------------------------------------

  // The statuses of an output, in order.
  function Statuses(out: seq<Output>): seq<Status> {
    if out == [] then []
    else (if out[0].StatusEvent? then [out[0].status] else []) + Statuses(out[1..])
  }

  // The statuses that ticks read, in order; a tick that cannot read the run gives none.
  function StatusesRead(fired: seq<Fired>): seq<Status> {
    if fired == [] then []
    else
      var last := fired[|fired| - 1];
      StatusesRead(fired[..|fired| - 1]) + if last.Ticked? && last.row.Some? then [last.row.value] else []
  }

  lemma {:induction false} StatusesConcat(a: seq<Output>, b: seq<Output>)
    ensures Statuses(a + b) == Statuses(a) + Statuses(b)
  {
    if a == [] {
      assert a + b == b;
    } else {
      assert (a + b)[1..] == a[1..] + b;
      StatusesConcat(a[1..], b);
      Regroup(if a[0].StatusEvent? then [a[0].status] else [], Statuses(a[1..]), Statuses(b));
    }
  }

  lemma {:induction false} NoStatusInData(lines: seq<string>)
    ensures Statuses(AllData(lines)) == []
  {
    if lines != [] {
      assert AllData(lines)[1..] == AllData(lines[1..]);
      NoStatusInData(lines[1..]);
    }
  }

  lemma StatusWritten(f: Fired)
    ensures Statuses(Written(f)) == if f.Ticked? && f.row.Some? then [f.row.value] else []
  {
    assert Written(f) != [] ==> Written(f)[1..] == [];
  }

  lemma {:induction false} StatusesWritten(fired: seq<Fired>)
    ensures Statuses(AllWritten(fired)) == StatusesRead(fired)
  {
    if fired != [] {
      StatusesWritten(fired[..|fired| - 1]);
      StatusesConcat(AllWritten(fired[..|fired| - 1]), Written(fired[|fired| - 1]));
      StatusWritten(fired[|fired| - 1]);
    }
  }

  lemma StatusesOfFour(a: seq<Output>, b: seq<Output>, c: seq<Output>, d: seq<Output>)
    ensures Statuses(a + b + c + d) == Statuses(a) + Statuses(b) + Statuses(c) + Statuses(d)
  {
    StatusesConcat(a, b);
    StatusesConcat(a + b, c);
    StatusesConcat(a + b + c, d);
  }

  // The cases up to and with the stop, if it is a tick.
  function Through(fired: seq<Fired>, stop: nat): seq<Fired>
    requires stop <= |fired|
  {
    if stop < |fired| && fired[stop].Ticked? then fired[..stop + 1] else fired[..stop]
  }

  lemma EndingStatuses(fired: seq<Fired>, stop: nat)
    requires stop <= |fired|
    ensures StatusesRead(fired[..stop]) + Statuses(Ending(fired, stop)) == StatusesRead(Through(fired, stop))
  {
    if stop < |fired| && fired[stop].Ticked? {
      assert fired[..stop + 1][..stop] == fired[..stop];
      StatusesConcat(Written(fired[stop]), [Done]);
      StatusWritten(fired[stop]);
      assert [Done][1..] == [];
    }
  }

  /** A client is told that the run is running, and then every status that a tick reads, in order, the
      one that ends the stream included. */
  lemma ClientGetsStatuses(history: seq<string>, fired: seq<Fired>, stop: nat)
    requires stop <= |fired|
    ensures Statuses(Followed(history, fired, stop)) == [Running] + StatusesRead(Through(fired, stop))
  {
    var first: seq<Output> := [StatusEvent(Running)];
    assert first[1..] == [];
    StatusesOfFour(first, AllData(history), AllWritten(fired[..stop]), Ending(fired, stop));
    NoStatusInData(history);
    StatusesWritten(fired[..stop]);
    EndingStatuses(fired, stop);
  }

  // --- When it ends ---------------------------------------------------------------------------------

  /** When a case ends the stream: the client has gone, or a tick read a status that is not running, or
      one that is, more than five seconds after the log stream closed. */
  lemma EndsIff(fired: seq<Fired>, k: nat)
    requires k < |fired|
    ensures Ends(fired, k) <==>
            || fired[k] == ContextDone
            || (fired[k].Ticked? && fired[k].row == Some(Succeeded)) ||
               (fired[k].Ticked? && fired[k].row == Some(Failed))
            || (fired[k].Ticked? && fired[k].row == Some(Running) &&
                exists c :: 0 <= c < k && fired[c].ChannelClosed? && fired[k].now - fired[c].at > 5_000_000_000)
  {
    forall c | 0 <= c < k
      ensures fired[..k][c] == fired[c]
    {
    }
    if c :| 0 <= c < k && fired[c].ChannelClosed? && fired[k].Ticked? && fired[k].now - fired[c].at > GRACE {
      assert LongAgo(fired[..k][c], fired[k].now);
    }
    if fired[k].Ticked? && ClosedLongAgo(fired[..k], fired[k].now) {
      var c :| 0 <= c < k && LongAgo(fired[..k][c], fired[k].now);
      assert fired[c].ChannelClosed?;
    }
  }
}
