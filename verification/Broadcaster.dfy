/** The fan-out of log lines to live subscribers.

    Go channels live in a table and are named by their position in it, so that sharing a channel
    between the broadcaster and its reader is sharing a handle.  A step is one lock-held section,
    except that Publish, which holds only the read lock, is cut up into one step per send: other
    publishers and all readers may run in between, and writers may not.  A send on a closed
    channel and a second close are steps of the machine: they set `panicked`. */
module Broadcaster {
  import opened Common

  const CHAN_BUFFER_SIZE: nat := 64

  datatype Chan = Chan(buf: seq<string>, closed: bool)

  // A Publish call that holds the read lock, with the channels it has not offered its line to.
  datatype Publishing = Publishing(run: string, line: string, rest: seq<nat>)

  datatype State = State(subs: map<string, seq<nat>>, chans: seq<Chan>, publishing: seq<Publishing>, panicked: bool) {
    // A Go map yields the empty slice for an absent key.
    function Subs(run: string): seq<nat> {
      if run in subs then subs[run] else []
    }
  }

  datatype Step =
    | Subscribe(run: string)
    | Unsub(run: string, ch: nat)
    | BeginPublish(run: string, line: string)
    | Send(i: nat)
    | EndPublish(i: nat)
    | Close(run: string)
    | Recv(ch: nat)

  const INIT := State(map[], [], [], false)

  // --- Operations on the channel table --------------------------------------------------------

  // close(c): closing twice panics.
  function CloseChan(s: State, ch: nat): State
    requires ch < |s.chans|
  {
    if s.chans[ch].closed then s.(panicked := true)
    else s.(chans := s.chans[ch := s.chans[ch].(closed := true)])
  }

  // select { case c <- line: default: }: a closed channel panics, a full one drops the line.
  function Offer(s: State, ch: nat, line: string): State
    requires ch < |s.chans|
  {
    var c := s.chans[ch];
    if c.closed then s.(panicked := true)
    else if |c.buf| < CHAN_BUFFER_SIZE then s.(chans := s.chans[ch := c.(buf := c.buf + [line])])
    else s
  }

  function CloseAll(s: State, list: seq<nat>): (r: State)
    requires forall ch :: ch in list ==> ch < |s.chans|
    ensures |r.chans| == |s.chans| && r.subs == s.subs && r.publishing == s.publishing
    decreases |list|
  {
    if list == [] then s
    else
      assert list[0] in list && forall ch :: ch in list[1..] ==> ch in list;
      CloseAll(CloseChan(s, list[0]), list[1..])
  }

  function IndexOf(list: seq<nat>, ch: nat): (i: nat)
    requires ch in list
    ensures i < |list| && list[i] == ch && ch !in list[..i]
  {
    if list[0] == ch then 0 else 1 + IndexOf(list[1..], ch)
  }

  function RemoveAt<T>(list: seq<T>, i: nat): seq<T>
    requires i < |list|
  {
    list[..i] + list[i + 1..]
  }

  // --- Steps ----------------------------------------------------------------------------------

  predicate Enabled(s: State, step: Step) {
    match step
    case Subscribe(_) => s.publishing == []
    case Unsub(run, ch) => s.publishing == [] && forall c :: c in s.Subs(run) ==> c < |s.chans|
    case BeginPublish(_, _) => true
    case Send(i) => i < |s.publishing| && s.publishing[i].rest != [] && s.publishing[i].rest[0] < |s.chans|
    case EndPublish(i) => i < |s.publishing| && s.publishing[i].rest == []
    case Close(run) => s.publishing == [] && forall c :: c in s.Subs(run) ==> c < |s.chans|
    case Recv(ch) => ch < |s.chans| && s.chans[ch].buf != []
  }

  function Apply(s: State, step: Step): State
    requires Enabled(s, step)
  {
    match step
    case Subscribe(run) =>
      s.(subs := s.subs[run := s.Subs(run) + [|s.chans|]], chans := s.chans + [Chan([], false)])
    case Unsub(run, ch) =>
      var list := s.Subs(run);
      if ch in list then
        var left := RemoveAt(list, IndexOf(list, ch));
        CloseChan(s, ch).(subs := if left == [] then s.subs - {run} else s.subs[run := left])
      else if list == [] then s.(subs := s.subs - {run})
      else s
    case BeginPublish(run, line) => s.(publishing := s.publishing + [Publishing(run, line, s.Subs(run))])
    case Send(i) =>
      var p := s.publishing[i];
      Offer(s, p.rest[0], p.line).(publishing := s.publishing[i := p.(rest := p.rest[1..])])
    case EndPublish(i) => s.(publishing := RemoveAt(s.publishing, i))
    case Close(run) => CloseAll(s, s.Subs(run)).(subs := s.subs - {run})
    case Recv(ch) => s.(chans := s.chans[ch := s.chans[ch].(buf := s.chans[ch].buf[1..])])
  }

  // --- The invariant --------------------------------------------------------------------------

  ghost predicate Distinct(list: seq<nat>) {
    forall i, j :: 0 <= i < j < |list| ==> list[i] != list[j]
  }

  // `ch` is registered under `run`.
  predicate Registered(s: State, run: string, ch: nat) {
    run in s.subs && ch in s.subs[run]
  }

  ghost predicate RegisteredSomewhere(s: State, ch: nat) {
    exists run :: Registered(s, run, ch)
  }

  // Lists of subscribers are never empty, never repeat a channel, and never share one.
  ghost predicate WellRegistered(s: State) {
    && (forall run :: run in s.subs ==> s.subs[run] != [] && Distinct(s.subs[run]))
    && (forall run, other, ch: nat :: Registered(s, run, ch) && Registered(s, other, ch) ==> run == other)
  }

  // Registered channels are exactly the open ones.
  ghost predicate OpenIffRegistered(s: State) {
    && (forall run, ch: nat :: Registered(s, run, ch) ==> ch < |s.chans|)
    && (forall ch :: 0 <= ch < |s.chans| ==> (!s.chans[ch].closed <==> RegisteredSomewhere(s, ch)))
  }

  // What a publisher still has to serve stays registered under its run for as long as it holds
  // the read lock.
  ghost predicate PublishersServed(s: State) {
    forall i :: 0 <= i < |s.publishing| ==>
      Distinct(s.publishing[i].rest) && forall ch :: ch in s.publishing[i].rest ==>
        Registered(s, s.publishing[i].run, ch)
  }

  ghost predicate Bounded(s: State) {
    forall ch :: 0 <= ch < |s.chans| ==> |s.chans[ch].buf| <= CHAN_BUFFER_SIZE
  }

  ghost predicate Inv(s: State) {
    !s.panicked && WellRegistered(s) && OpenIffRegistered(s) && PublishersServed(s) && Bounded(s)
  }

  lemma AppendDistinct(list: seq<nat>, ch: nat)
    requires Distinct(list) && ch !in list
    ensures Distinct(list + [ch])
  {
  }

  lemma SubscribeKeepsInv(s: State, run: string)
    requires Inv(s) && Enabled(s, Subscribe(run))
    ensures Inv(Apply(s, Subscribe(run)))
  {
    var t, newest := Apply(s, Subscribe(run)), |s.chans|;
    assert forall ch :: ch in s.Subs(run) ==> Registered(s, run, ch);
    forall r, ch
      ensures Registered(t, r, ch) <==> Registered(s, r, ch) || (r == run && ch == newest)
    {
    }
    assert Registered(t, run, newest);
    assert Distinct(s.Subs(run)) && newest !in s.Subs(run);
    AppendDistinct(s.Subs(run), newest);
    forall ch | 0 <= ch < |t.chans|
      ensures !t.chans[ch].closed <==> RegisteredSomewhere(t, ch)
    {
      if ch < newest && RegisteredSomewhere(s, ch) {
        var r :| Registered(s, r, ch);
        assert Registered(t, r, ch);
      }
    }
  }

  lemma DistinctRemoved(list: seq<nat>, i: nat)
    requires Distinct(list) && i < |list|
    ensures Distinct(RemoveAt(list, i))
    ensures forall ch :: ch in RemoveAt(list, i) <==> ch in list && ch != list[i]
  {
    var left := RemoveAt(list, i);
    forall ch | ch in list && ch != list[i]
      ensures ch in left
    {
      var k :| 0 <= k < |list| && list[k] == ch;
      assert left[if k < i then k else k - 1] == ch;
    }
  }

  lemma UnsubKeepsInv(s: State, run: string, ch: nat)
    requires Inv(s) && Enabled(s, Unsub(run, ch))
    ensures Inv(Apply(s, Unsub(run, ch)))
  {
    var t, list := Apply(s, Unsub(run, ch)), s.Subs(run);
    if ch in list {
      DistinctRemoved(list, IndexOf(list, ch));
      assert Registered(s, run, ch);
      forall r, c
        ensures Registered(t, r, c) <==> Registered(s, r, c) && c != ch
      {
        if r != run {
          assert r in t.subs <==> r in s.subs;
          assert r in s.subs ==> t.subs[r] == s.subs[r];
        }
        if Registered(s, r, c) && c == ch {
          assert r == run;
        }
      }
      forall c | 0 <= c < |t.chans|
        ensures !t.chans[c].closed <==> RegisteredSomewhere(t, c)
      {
        if c != ch && RegisteredSomewhere(s, c) {
          var r :| Registered(s, r, c);
          assert Registered(t, r, c);
        }
      }
    } else {
      assert t == s;
    }
  }

  lemma {:induction false} CloseAllCloses(s: State, list: seq<nat>)
    requires Distinct(list)
    requires forall ch :: ch in list ==> ch < |s.chans| && !s.chans[ch].closed
    ensures CloseAll(s, list).panicked == s.panicked
    ensures forall ch :: 0 <= ch < |s.chans| ==>
              CloseAll(s, list).chans[ch] == if ch in list then s.chans[ch].(closed := true) else s.chans[ch]
    decreases |list|
  {
    if list != [] {
      assert list[0] in list && forall ch :: ch in list[1..] ==> ch in list;
      assert forall k :: 0 <= k < |list| - 1 ==> list[1..][k] == list[k + 1];
      CloseAllCloses(CloseChan(s, list[0]), list[1..]);
    }
  }

  lemma CloseKeepsInv(s: State, run: string)
    requires Inv(s) && Enabled(s, Close(run))
    ensures Inv(Apply(s, Close(run)))
  {
    var t, list := Apply(s, Close(run)), s.Subs(run);
    forall ch | ch in list
      ensures ch < |s.chans| && !s.chans[ch].closed
    {
      assert Registered(s, run, ch);
    }
    CloseAllCloses(s, list);
    forall r, ch
      ensures Registered(t, r, ch) <==> Registered(s, r, ch) && r != run
    {
    }
    forall ch | 0 <= ch < |t.chans|
      ensures !t.chans[ch].closed <==> RegisteredSomewhere(t, ch)
    {
      assert RegisteredSomewhere(s, ch) <==> !s.chans[ch].closed;
      if RegisteredSomewhere(s, ch) {
        var r :| Registered(s, r, ch);
        if r == run {
          assert t.chans[ch].closed;
        } else {
          assert Registered(t, r, ch);
          assert ch in list ==> Registered(s, run, ch);
        }
      }
    }
  }

  // Steps that leave the registrations and the closed flags alone.
  lemma SameRegistrations(s: State, t: State)
    requires Inv(s) && t.subs == s.subs && !t.panicked && |t.chans| == |s.chans|
    requires forall ch :: 0 <= ch < |s.chans| ==> t.chans[ch].closed == s.chans[ch].closed
    ensures WellRegistered(t) && OpenIffRegistered(t)
  {
    forall run, ch
      ensures Registered(t, run, ch) == Registered(s, run, ch)
    {
    }
    forall ch
      ensures RegisteredSomewhere(t, ch) == RegisteredSomewhere(s, ch)
    {
      if RegisteredSomewhere(s, ch) {
        var run :| Registered(s, run, ch);
        assert Registered(t, run, ch);
      }
    }
  }

  lemma SendKeepsInv(s: State, i: nat)
    requires Inv(s) && Enabled(s, Send(i))
    ensures Inv(Apply(s, Send(i)))
  {
    var p, t := s.publishing[i], Apply(s, Send(i));
    assert Registered(s, p.run, p.rest[0]);
    SameRegistrations(s, t);
    forall j, ch | 0 <= j < |t.publishing| && ch in t.publishing[j].rest
      ensures Registered(t, t.publishing[j].run, ch)
    {
      assert ch in s.publishing[j].rest;
      assert Registered(s, s.publishing[j].run, ch);
    }
  }

  /** No step leaves the invariant, so in every interleaving nothing is sent on a closed channel and
      nothing is closed twice. */
  lemma StepKeepsInv(s: State, step: Step)
    requires Inv(s) && Enabled(s, step)
    ensures Inv(Apply(s, step))
  {
    match step
    case Subscribe(run) => SubscribeKeepsInv(s, run);
    case Unsub(run, ch) => UnsubKeepsInv(s, run, ch);
    case BeginPublish(_, _) => SameRegistrations(s, Apply(s, step));
    case Send(i) => SendKeepsInv(s, i);
    case EndPublish(_) => SameRegistrations(s, Apply(s, step));
    case Close(run) => CloseKeepsInv(s, run);
    case Recv(_) => SameRegistrations(s, Apply(s, step));
  }

  // --- What each section does -------------------------------------------------------------------

  ghost predicate SameList(s: State, t: State, run: string) {
    (run in t.subs <==> run in s.subs) && (run in s.subs ==> t.subs[run] == s.subs[run])
  }

  /** Subscribing adds one new channel, open and empty, at the end of the run's list, and touches no
      other list and no other channel. */
  lemma SubscribeEffect(s: State, run: string)
    requires Inv(s) && Enabled(s, Subscribe(run))
    ensures var t, newest := Apply(s, Subscribe(run)), |s.chans|;
            && run in t.subs && t.subs[run] == s.Subs(run) + [newest] && (forall r :: r != run ==> SameList(s, t, r))
            && |t.chans| == |s.chans| + 1 && !t.chans[newest].closed && t.chans[newest].buf == []
            && (forall ch :: 0 <= ch < |s.chans| ==> t.chans[ch] == s.chans[ch])
  {
  }

  /** Leaving closes the subscriber's channel, keeps what is queued in it, and takes it, and nothing
      else, from the run's list; the run's entry goes with its last channel; leaving again changes
      nothing. */
  lemma UnsubEffect(s: State, run: string, ch: nat)
    requires Inv(s) && Enabled(s, Unsub(run, ch))
    ensures var t := Apply(s, Unsub(run, ch));
            && ch !in t.Subs(run) && (forall c :: c != ch ==> (c in t.Subs(run) <==> c in s.Subs(run)))
            && (run in t.subs ==> t.subs[run] != []) && (forall r :: r != run ==> SameList(s, t, r))
            && |t.chans| == |s.chans| && (forall c :: 0 <= c < |s.chans| && c != ch ==> t.chans[c] == s.chans[c])
            && (ch in s.Subs(run) ==> ch < |s.chans| && t.chans[ch].closed && t.chans[ch].buf == s.chans[ch].buf)
            && (ch !in s.Subs(run) ==> t == s)
  {
    var list := s.Subs(run);
    if ch in list {
      assert Registered(s, run, ch);
      DistinctRemoved(list, IndexOf(list, ch));
    }
  }

  lemma SubsOpen(s: State, run: string)
    requires Inv(s)
    ensures forall ch :: ch in s.Subs(run) ==> ch < |s.chans| && !s.chans[ch].closed
  {
    forall ch | ch in s.Subs(run)
      ensures ch < |s.chans| && !s.chans[ch].closed
    {
      assert Registered(s, run, ch);
      assert RegisteredSomewhere(s, ch);
    }
  }

  /** Closing a run closes every channel of its list, keeps what is queued in them, drops the run's
      entry, and touches no other list and no other channel. */
  lemma CloseEffect(s: State, run: string)
    requires Inv(s) && Enabled(s, Close(run))
    ensures var t := Apply(s, Close(run));
            && run !in t.subs && (forall r :: r != run ==> SameList(s, t, r)) && |t.chans| == |s.chans|
            && (forall ch :: ch in s.Subs(run) ==>
                  ch < |s.chans| && t.chans[ch].closed && t.chans[ch].buf == s.chans[ch].buf)
            && (forall ch :: 0 <= ch < |s.chans| && ch !in s.Subs(run) ==> t.chans[ch] == s.chans[ch])
  {
    SubsOpen(s, run);
    assert Distinct(s.Subs(run));
    CloseAllCloses(s, s.Subs(run));
  }

  // --- Whole interleavings --------------------------------------------------------------------

  // `states[k]` is the state before `steps[k]`.
  datatype Run = Run(states: seq<State>, steps: seq<Step>)

  ghost predicate IsRun(r: Run) {
    && |r.states| == |r.steps| + 1
    && r.states[0] == INIT
    && forall k :: 0 <= k < |r.steps| ==>
       Enabled(r.states[k], r.steps[k]) && r.states[k + 1] == Apply(r.states[k], r.steps[k])
  }

  /** Safety over every interleaving of subscribing, leaving (any number of times), publishing,
      closing and reading. */
  lemma {:induction false} RunIsSafe(r: Run, n: nat)
    requires IsRun(r) && n < |r.states|
    ensures Inv(r.states[n]) && !r.states[n].panicked
  {
    if n > 0 {
      RunIsSafe(r, n - 1);
      StepKeepsInv(r.states[n - 1], r.steps[n - 1]);
    }
  }

  // IsActive asks for the length of the list; the presence of the key is the same thing.
  lemma ActiveIsKeyPresence(r: Run, n: nat, run: string)
    requires IsRun(r) && n < |r.states|
    ensures |r.states[n].Subs(run)| > 0 <==> run in r.states[n].subs
  {
    RunIsSafe(r, n);
  }

  lemma StepKeepsClosed(s: State, step: Step, ch: nat)
    requires Inv(s) && Enabled(s, step) && ch < |s.chans| && s.chans[ch].closed
    ensures ch < |Apply(s, step).chans| && Apply(s, step).chans[ch].closed
  {
    match step
    case Subscribe(run) => SubscribeEffect(s, run);
    case Unsub(run, c) => UnsubEffect(s, run, c);
    case Close(run) => CloseEffect(s, run);
    case _ =>
  }

  lemma {:induction false} ClosedStays(r: Run, ch: nat, n: nat, m: nat)
    requires IsRun(r) && n <= m < |r.states| && ch < |r.states[n].chans| && r.states[n].chans[ch].closed
    ensures ch < |r.states[m].chans| && r.states[m].chans[ch].closed
  {
    if n < m {
      ClosedStays(r, ch, n, m - 1);
      RunIsSafe(r, m - 1);
      StepKeepsClosed(r.states[m - 1], r.steps[m - 1], ch);
    }
  }

  /** A channel registered when its run is closed, or whose subscriber leaves, is closed and in no list
      at every later point of the run: its reader sees the end, once. */
  lemma ClosedForGood(r: Run, run: string, ch: nat, n: nat, m: nat)
    requires IsRun(r) && n < m < |r.states| && ch in r.states[n].Subs(run)
    requires r.steps[n] == Close(run) || r.steps[n] == Unsub(run, ch)
    ensures ch < |r.states[m].chans| && r.states[m].chans[ch].closed && !RegisteredSomewhere(r.states[m], ch)
  {
    RunIsSafe(r, n);
    RunIsSafe(r, m);
    assert Enabled(r.states[n], r.steps[n]);
    if r.steps[n] == Close(run) {
      CloseEffect(r.states[n], run);
    } else {
      UnsubEffect(r.states[n], run, ch);
    }
    ClosedStays(r, ch, n + 1, m);
  }

  predicate BeginsFor(s: State, step: Step, ch: nat) {
    step.BeginPublish? && ch in s.Subs(step.run)
  }

  // The lines published under the run of `ch`, by calls that began while `ch` was registered.
  ghost function PublishedTo(r: Run, ch: nat, n: nat): seq<string>
    requires IsRun(r) && n <= |r.steps|
  {
    if n == 0 then []
    else
      PublishedTo(r, ch, n - 1) + if BeginsFor(r.states[n - 1], r.steps[n - 1], ch) then [r.steps[n - 1].line] else []
  }

  predicate SendsTo(s: State, step: Step, ch: nat)
    requires Enabled(s, step)
  {
    step.Send? && s.publishing[step.i].rest[0] == ch
  }

  // The lines offered to `ch`, in the order of the sends.
  ghost function OfferedTo(r: Run, ch: nat, n: nat): seq<string>
    requires IsRun(r) && n <= |r.steps|
  {
    if n == 0 then []
    else
      var s, step := r.states[n - 1], r.steps[n - 1];
      OfferedTo(r, ch, n - 1) + if SendsTo(s, step, ch) then [s.publishing[step.i].line] else []
  }

  // The lines the reader of `ch` has taken.
  ghost function ReceivedFrom(r: Run, ch: nat, n: nat): seq<string>
    requires IsRun(r) && n <= |r.steps|
  {
    if n == 0 then []
    else
      ReceivedFrom(r, ch, n - 1) + if r.steps[n - 1] == Recv(ch) then [r.states[n - 1].chans[ch].buf[0]] else []
  }

  // The offers that fit: a line is kept when fewer than 64 kept lines are still unread.
  ghost function KeptFor(r: Run, ch: nat, n: nat): seq<string>
    requires IsRun(r) && n <= |r.steps|
  {
    if n == 0 then []
    else
      var s, step, kept := r.states[n - 1], r.steps[n - 1], KeptFor(r, ch, n - 1);
      if SendsTo(s, step, ch) && |kept| - |ReceivedFrom(r, ch, n - 1)| < CHAN_BUFFER_SIZE
      then kept + [s.publishing[step.i].line]
      else kept
  }

  // What one step does to one buffer.
  lemma BufferAfter(s: State, step: Step, ch: nat)
    requires Inv(s) && Enabled(s, step)
    ensures |Apply(s, step).chans| >= |s.chans|
    ensures |s.chans| <= ch < |Apply(s, step).chans| ==> Apply(s, step).chans[ch].buf == []
    ensures ch < |s.chans| ==>
              Apply(s, step).chans[ch].buf ==
              if SendsTo(s, step, ch) && |s.chans[ch].buf| < CHAN_BUFFER_SIZE
              then s.chans[ch].buf + [s.publishing[step.i].line]
              else if step == Recv(ch) then s.chans[ch].buf[1..]
              else s.chans[ch].buf
  {
    match step
    case Send(i) =>
      var p := s.publishing[i];
      assert Registered(s, p.run, p.rest[0]);
      assert RegisteredSomewhere(s, p.rest[0]);
    case Close(run) =>
      forall c | c in s.Subs(run)
        ensures c < |s.chans| && !s.chans[c].closed
      {
        assert Registered(s, run, c);
      }
      CloseAllCloses(s, s.Subs(run));
    case _ =>
  }

  // ... at the n-th step of a run.
  lemma BufferAfterStep(r: Run, ch: nat, n: nat)
    requires IsRun(r) && n < |r.steps|
    ensures |r.states[n + 1].chans| >= |r.states[n].chans|
    ensures |r.states[n].chans| <= ch < |r.states[n + 1].chans| ==> r.states[n + 1].chans[ch].buf == []
    ensures ch < |r.states[n].chans| ==>
              r.states[n + 1].chans[ch].buf ==
              if SendsTo(r.states[n], r.steps[n], ch) && |r.states[n].chans[ch].buf| < CHAN_BUFFER_SIZE
              then r.states[n].chans[ch].buf + [r.states[n].publishing[r.steps[n].i].line]
              else if r.steps[n] == Recv(ch) then r.states[n].chans[ch].buf[1..]
              else r.states[n].chans[ch].buf
  {
    RunIsSafe(r, n);
    BufferAfter(r.states[n], r.steps[n], ch);
  }

  function Queued(s: State, ch: nat): seq<string> {
    if ch < |s.chans| then s.chans[ch].buf else []
  }

  // Kept so far is read plus queued.
  ghost predicate InFifo(r: Run, ch: nat, n: nat)
    requires IsRun(r) && n <= |r.steps|
  {
    KeptFor(r, ch, n) == ReceivedFrom(r, ch, n) + Queued(r.states[n], ch)
  }

  lemma SendInFifo(r: Run, ch: nat, n: nat)
    requires IsRun(r) && n < |r.steps| && InFifo(r, ch, n) && SendsTo(r.states[n], r.steps[n], ch)
    ensures InFifo(r, ch, n + 1)
  {
    BufferAfterStep(r, ch, n);
    var received, queued := ReceivedFrom(r, ch, n), Queued(r.states[n], ch);
    assert ReceivedFrom(r, ch, n + 1) == received + [] == received;
    assert |KeptFor(r, ch, n)| - |received| == |queued|;
    Regroup(received, queued, [r.states[n].publishing[r.steps[n].i].line]);
  }

  lemma MoveFirst(received: seq<string>, queued: seq<string>)
    requires queued != []
    ensures received + [queued[0]] + queued[1..] == received + queued
  {
  }

  lemma RecvInFifo(r: Run, ch: nat, n: nat)
    requires IsRun(r) && n < |r.steps| && InFifo(r, ch, n) && r.steps[n] == Recv(ch)
    ensures InFifo(r, ch, n + 1)
  {
    BufferAfterStep(r, ch, n);
    var received, queued := ReceivedFrom(r, ch, n), Queued(r.states[n], ch);
    assert Enabled(r.states[n], Recv(ch));
    assert Queued(r.states[n + 1], ch) == queued[1..];
    assert KeptFor(r, ch, n + 1) == KeptFor(r, ch, n);
    MoveFirst(received, queued);
  }

  lemma OtherInFifo(r: Run, ch: nat, n: nat)
    requires IsRun(r) && n < |r.steps| && InFifo(r, ch, n)
    requires !SendsTo(r.states[n], r.steps[n], ch) && r.steps[n] != Recv(ch)
    ensures InFifo(r, ch, n + 1)
  {
    BufferAfterStep(r, ch, n);
    assert KeptFor(r, ch, n + 1) == KeptFor(r, ch, n);
    assert ReceivedFrom(r, ch, n + 1) == ReceivedFrom(r, ch, n) + [] == ReceivedFrom(r, ch, n);
  }

  /** Delivery is FIFO and the only loss is the full buffer: what a subscriber has read, followed
      by what is queued for it, is exactly the offers that found fewer than 64 lines unread. */
  lemma {:induction false} DeliveryIsFifo(r: Run, ch: nat, n: nat)
    requires IsRun(r) && n <= |r.steps|
    ensures KeptFor(r, ch, n) == ReceivedFrom(r, ch, n) + Queued(r.states[n], ch)
  {
    if n > 0 {
      DeliveryIsFifo(r, ch, n - 1);
      if SendsTo(r.states[n - 1], r.steps[n - 1], ch) {
        SendInFifo(r, ch, n - 1);
      } else if r.steps[n - 1] == Recv(ch) {
        RecvInFifo(r, ch, n - 1);
      } else {
        OtherInFifo(r, ch, n - 1);
      }
    }
  }

  // Lines of calls in flight that have not reached `ch` yet.
  function Pending(publishing: seq<Publishing>, ch: nat): seq<string> {
    if publishing == [] then []
    else (if ch in publishing[0].rest then [publishing[0].line] else []) + Pending(publishing[1..], ch)
  }

  lemma {:induction false} PendingConcat(a: seq<Publishing>, b: seq<Publishing>, ch: nat)
    ensures Pending(a + b, ch) == Pending(a, ch) + Pending(b, ch)
  {
    if a == [] {
      assert a + b == b;
    } else {
      assert (a + b)[1..] == a[1..] + b;
      PendingConcat(a[1..], b, ch);
    }
  }

  lemma PendingAt(publishing: seq<Publishing>, i: nat, ch: nat)
    requires i < |publishing|
    ensures Pending(publishing, ch) ==
            Pending(publishing[..i], ch) + (if ch in publishing[i].rest then [publishing[i].line] else []) +
            Pending(publishing[i + 1..], ch)
  {
    assert publishing == publishing[..i] + ([publishing[i]] + publishing[i + 1..]);
    PendingConcat(publishing[..i], [publishing[i]] + publishing[i + 1..], ch);
    PendingConcat([publishing[i]], publishing[i + 1..], ch);
    assert Pending([publishing[i]], ch) == if ch in publishing[i].rest then [publishing[i].line] else [];
  }

  lemma PendingAfterSend(publishing: seq<Publishing>, i: nat, ch: nat)
    requires i < |publishing| && publishing[i].rest != [] && Distinct(publishing[i].rest)
    ensures var p := publishing[i];
            var before, lo, hi := Pending(publishing, ch), Pending(publishing[..i], ch),
                Pending(publishing[i + 1..], ch);
            var after := Pending(publishing[i := p.(rest := p.rest[1..])], ch);
            if p.rest[0] == ch then before == lo + [p.line] + hi && after == lo + hi else after == before
  {
    var p := publishing[i];
    var later := publishing[i := p.(rest := p.rest[1..])];
    PendingAt(publishing, i, ch);
    PendingAt(later, i, ch);
    assert later[..i] == publishing[..i] && later[i + 1..] == publishing[i + 1..];
    assert ch in p.rest[1..] <==> ch in p.rest && ch != p.rest[0];
  }

  lemma PublishersSame(s: State, step: Step)
    requires Enabled(s, step) && !step.BeginPublish? && !step.Send? && !step.EndPublish?
    ensures Apply(s, step).publishing == s.publishing
  {
  }

  lemma PendingAfterEnd(publishing: seq<Publishing>, i: nat, ch: nat)
    requires i < |publishing| && publishing[i].rest == []
    ensures Pending(RemoveAt(publishing, i), ch) == Pending(publishing, ch)
  {
    PendingAt(publishing, i, ch);
    PendingConcat(publishing[..i], publishing[i + 1..], ch);
  }

  lemma PendingAfterBegin(publishing: seq<Publishing>, p: Publishing, ch: nat)
    ensures Pending(publishing + [p], ch) == Pending(publishing, ch) + if ch in p.rest then [p.line] else []
  {
    PendingConcat(publishing, [p], ch);
    assert [p][1..] == [];
  }

  // A send settles one pending offer to the channel it goes to; nothing else settles any.
  lemma PendingAfter(s: State, step: Step, ch: nat) returns (lo: seq<string>, hi: seq<string>)
    requires Inv(s) && Enabled(s, step)
    ensures SendsTo(s, step, ch) ==>
              && Pending(s.publishing, ch) == lo + [s.publishing[step.i].line] + hi
              && Pending(Apply(s, step).publishing, ch) == lo + hi
    ensures !SendsTo(s, step, ch) ==>
              Pending(Apply(s, step).publishing, ch) ==
              Pending(s.publishing, ch) + if BeginsFor(s, step, ch) then [step.line] else []
  {
    lo, hi := [], [];
    if step.BeginPublish? {
      PendingAfterBegin(s.publishing, Publishing(step.run, step.line, s.Subs(step.run)), ch);
    } else if step.Send? {
      var i := step.i;
      lo, hi := Pending(s.publishing[..i], ch), Pending(s.publishing[i + 1..], ch);
      assert Distinct(s.publishing[i].rest);
      PendingAfterSend(s.publishing, i, ch);
    } else if step.EndPublish? {
      PendingAfterEnd(s.publishing, step.i, ch);
    } else {
      PublishersSame(s, step);
    }
  }

  // ... at the n-th step of a run.
  lemma PendingAfterStep(r: Run, ch: nat, n: nat) returns (lo: seq<string>, hi: seq<string>)
    requires IsRun(r) && n < |r.steps|
    ensures SendsTo(r.states[n], r.steps[n], ch) ==>
              && Pending(r.states[n].publishing, ch) == lo + [r.states[n].publishing[r.steps[n].i].line] + hi
              && Pending(r.states[n + 1].publishing, ch) == lo + hi
    ensures !SendsTo(r.states[n], r.steps[n], ch) ==>
              Pending(r.states[n + 1].publishing, ch) ==
              Pending(r.states[n].publishing, ch) + if BeginsFor(r.states[n], r.steps[n], ch) then [r.steps[n].line]
                else []
  {
    RunIsSafe(r, n);
    lo, hi := PendingAfter(r.states[n], r.steps[n], ch);
  }

  ghost predicate Balanced(offered: seq<string>, pending: seq<string>, published: seq<string>) {
    multiset(offered) + multiset(pending) == multiset(published)
  }

  lemma SettledOnce(offered: seq<string>, lo: seq<string>, line: string, hi: seq<string>, published: seq<string>)
    requires Balanced(offered, lo + [line] + hi, published)
    ensures Balanced(offered + [line], lo + hi, published)
  {
  }

  lemma BegunOnce(offered: seq<string>, pending: seq<string>, more: seq<string>, published: seq<string>)
    requires Balanced(offered, pending, published)
    ensures Balanced(offered, pending + more, published + more)
  {
  }

  ghost predicate Accounted(r: Run, ch: nat, n: nat)
    requires IsRun(r) && n <= |r.steps|
  {
    Balanced(OfferedTo(r, ch, n), Pending(r.states[n].publishing, ch), PublishedTo(r, ch, n))
  }

  lemma SendAccounted(r: Run, ch: nat, n: nat)
    requires IsRun(r) && n < |r.steps| && Accounted(r, ch, n) && SendsTo(r.states[n], r.steps[n], ch)
    ensures Accounted(r, ch, n + 1)
  {
    var lo, hi := PendingAfterStep(r, ch, n);
    var offered, published := OfferedTo(r, ch, n), PublishedTo(r, ch, n);
    assert PublishedTo(r, ch, n + 1) == published + [] == published;
    SettledOnce(offered, lo, r.states[n].publishing[r.steps[n].i].line, hi, published);
  }

  lemma OtherAccounted(r: Run, ch: nat, n: nat)
    requires IsRun(r) && n < |r.steps| && Accounted(r, ch, n) && !SendsTo(r.states[n], r.steps[n], ch)
    ensures Accounted(r, ch, n + 1)
  {
    var lo, hi := PendingAfterStep(r, ch, n);
    var offered, published := OfferedTo(r, ch, n), PublishedTo(r, ch, n);
    var more := if BeginsFor(r.states[n], r.steps[n], ch) then [r.steps[n].line] else [];
    assert OfferedTo(r, ch, n + 1) == offered + [] == offered;
    BegunOnce(offered, Pending(r.states[n].publishing, ch), more, published);
  }

  /** Conservation: every call that began while a channel was registered offers its line to that
      channel exactly once, or still has to. */
  lemma {:induction false} OfferedOnce(r: Run, ch: nat, n: nat)
    requires IsRun(r) && n <= |r.steps|
    ensures multiset(OfferedTo(r, ch, n)) + multiset(Pending(r.states[n].publishing, ch)) ==
            multiset(PublishedTo(r, ch, n))
  {
    if n > 0 {
      OfferedOnce(r, ch, n - 1);
      if SendsTo(r.states[n - 1], r.steps[n - 1], ch) {
        SendAccounted(r, ch, n - 1);
      } else {
        OtherAccounted(r, ch, n - 1);
      }
    }
  }

  // The calls that reach `ch` begin one after the other, as those of the one streamer of a run do.
  // Calls for other runs may begin at any time.
  ghost predicate OneAtATime(r: Run, ch: nat, n: nat)
    requires IsRun(r) && n <= |r.steps|
  {
    forall k :: 0 <= k < n && BeginsFor(r.states[k], r.steps[k], ch) ==> Pending(r.states[k].publishing, ch) == []
  }

  // Offered so far and pending, at most one line, is what was published.
  ghost predicate Ordered(r: Run, ch: nat, n: nat)
    requires IsRun(r) && n <= |r.steps|
  {
    && OfferedTo(r, ch, n) + Pending(r.states[n].publishing, ch) == PublishedTo(r, ch, n)
    && |Pending(r.states[n].publishing, ch)| <= 1
  }

  lemma SendOrdered(r: Run, ch: nat, n: nat)
    requires IsRun(r) && n < |r.steps| && Ordered(r, ch, n) && SendsTo(r.states[n], r.steps[n], ch)
    ensures Ordered(r, ch, n + 1)
  {
    var lo, hi := PendingAfterStep(r, ch, n);
    assert lo == [] && hi == [];
    assert PublishedTo(r, ch, n + 1) == PublishedTo(r, ch, n) + [] == PublishedTo(r, ch, n);
  }

  lemma OtherOrdered(r: Run, ch: nat, n: nat)
    requires IsRun(r) && n < |r.steps| && Ordered(r, ch, n) && !SendsTo(r.states[n], r.steps[n], ch)
    requires BeginsFor(r.states[n], r.steps[n], ch) ==> Pending(r.states[n].publishing, ch) == []
    ensures Ordered(r, ch, n + 1)
  {
    var lo, hi := PendingAfterStep(r, ch, n);
    assert OfferedTo(r, ch, n + 1) == OfferedTo(r, ch, n) + [] == OfferedTo(r, ch, n);
  }

  lemma StepOrdered(r: Run, ch: nat, n: nat)
    requires IsRun(r) && n < |r.steps| && Ordered(r, ch, n)
    requires BeginsFor(r.states[n], r.steps[n], ch) ==> Pending(r.states[n].publishing, ch) == []
    ensures Ordered(r, ch, n + 1)
  {
    if SendsTo(r.states[n], r.steps[n], ch) {
      SendOrdered(r, ch, n);
    } else {
      OtherOrdered(r, ch, n);
    }
  }

  lemma {:induction false} AlwaysOrdered(r: Run, ch: nat, n: nat)
    requires IsRun(r) && n <= |r.steps| && OneAtATime(r, ch, n)
    ensures Ordered(r, ch, n)
  {
    if n > 0 {
      AlwaysOrdered(r, ch, n - 1);
      StepOrdered(r, ch, n - 1);
    }
  }

  /** When the calls that reach a channel do not overlap, the offers come in the order of publication. */
  lemma OfferedInOrder(r: Run, ch: nat, n: nat)
    requires IsRun(r) && n <= |r.steps| && OneAtATime(r, ch, n)
    ensures OfferedTo(r, ch, n) + Pending(r.states[n].publishing, ch) == PublishedTo(r, ch, n)
    ensures |Pending(r.states[n].publishing, ch)| <= 1
  {
    AlwaysOrdered(r, ch, n);
  }

  // `a` is what is left of `b` after some lines were taken out.
  predicate Subsequence(a: seq<string>, b: seq<string>) {
    a == [] ||
    (b != [] && ((a[|a| - 1] == b[|b| - 1] && Subsequence(a[..|a| - 1], b[..|b| - 1])) || Subsequence(a, b[..|b| - 1])))
  }

  lemma {:induction false} SubsequenceOfLonger(a: seq<string>, b: seq<string>, more: seq<string>)
    requires Subsequence(a, b)
    ensures Subsequence(a, b + more)
    decreases |more|
  {
    if more == [] {
      assert b + more == b;
    } else {
      SubsequenceOfLonger(a, b, more[..|more| - 1]);
      assert (b + more)[..|b + more| - 1] == b + more[..|more| - 1];
    }
  }

  lemma {:induction false} PrefixOfSubsequence(a: seq<string>, dropped: seq<string>, b: seq<string>)
    requires Subsequence(a + dropped, b)
    ensures Subsequence(a, b)
    decreases |b|
  {
    if dropped == [] {
      assert a + dropped == a;
    } else if a != [] {
      var all, shorter := a + dropped, b[..|b| - 1];
      assert all[..|all| - 1] == a + dropped[..|dropped| - 1];
      if Subsequence(all, shorter) {
        PrefixOfSubsequence(a, dropped, shorter);
      } else {
        PrefixOfSubsequence(a, dropped[..|dropped| - 1], shorter);
      }
    }
  }

  lemma {:induction false} KeptFromOffered(r: Run, ch: nat, n: nat)
    requires IsRun(r) && n <= |r.steps|
    ensures Subsequence(KeptFor(r, ch, n), OfferedTo(r, ch, n))
  {
    if n > 0 {
      KeptFromOffered(r, ch, n - 1);
      var s, step := r.states[n - 1], r.steps[n - 1];
      if SendsTo(s, step, ch) {
        SnocSubsequence(KeptFor(r, ch, n - 1), OfferedTo(r, ch, n - 1), s.publishing[step.i].line);
      } else {
        assert OfferedTo(r, ch, n) == OfferedTo(r, ch, n - 1);
      }
    }
  }

  lemma SnocSubsequence(a: seq<string>, b: seq<string>, line: string)
    requires Subsequence(a, b)
    ensures Subsequence(a + [line], b + [line]) && Subsequence(a, b + [line])
  {
    assert (a + [line])[..|a|] == a && (b + [line])[..|b|] == b;
  }

  /** What a subscriber has read is a subsequence of the lines published while it was registered, in
      their order, whatever the other runs do: the lines that are missing were dropped on its full
      channel, or wait. */
  lemma ReceivedInOrder(r: Run, ch: nat, n: nat)
    requires IsRun(r) && n <= |r.steps| && OneAtATime(r, ch, n)
    ensures Subsequence(ReceivedFrom(r, ch, n), PublishedTo(r, ch, n))
  {
    KeptFromOffered(r, ch, n);
    DeliveryIsFifo(r, ch, n);
    PrefixOfSubsequence(ReceivedFrom(r, ch, n), Queued(r.states[n], ch), OfferedTo(r, ch, n));
    OfferedInOrder(r, ch, n);
    SubsequenceOfLonger(ReceivedFrom(r, ch, n), OfferedTo(r, ch, n), Pending(r.states[n].publishing, ch));
  }

  // --- The object -----------------------------------------------------------------------------

  function OfferAll(s: State, list: seq<nat>, line: string): (r: State)
    requires forall ch :: ch in list ==> ch < |s.chans|
    ensures |r.chans| == |s.chans| && r.subs == s.subs && r.publishing == s.publishing
    decreases |list|
  {
    if list == [] then s
    else
      assert list[0] in list && forall ch :: ch in list[1..] ==> ch in list;
      OfferAll(Offer(s, list[0], line), list[1..], line)
  }

  // The rest of the sends of the only call in flight, one machine step each.
  function Serve(s: State): State
    requires |s.publishing| == 1 && forall ch :: ch in s.publishing[0].rest ==> ch < |s.chans|
    decreases |s.publishing[0].rest|
  {
    if s.publishing[0].rest == [] then s
    else
      assert s.publishing[0].rest[0] in s.publishing[0].rest;
      assert forall ch :: ch in s.publishing[0].rest[1..] ==> ch in s.publishing[0].rest;
      Serve(Apply(s, Send(0)))
  }

  lemma {:induction false} ServeOffersAll(s: State)
    requires |s.publishing| == 1 && forall ch :: ch in s.publishing[0].rest ==> ch < |s.chans|
    ensures var p := s.publishing[0];
            Serve(s) == OfferAll(s, p.rest, p.line).(publishing := [p.(rest := [])])
    decreases |s.publishing[0].rest|
  {
    var p := s.publishing[0];
    if p.rest != [] {
      assert p.rest[0] in p.rest && forall ch :: ch in p.rest[1..] ==> ch in p.rest;
      var t := Apply(s, Send(0));
      ServeOffersAll(t);
      OfferAllIgnores(Offer(s, p.rest[0], p.line), p.rest[1..], p.line, t.publishing);
    } else {
      assert s.publishing == [p.(rest := [])];
    }
  }

  lemma {:induction false} OfferAllIgnores(s: State, list: seq<nat>, line: string, publishing: seq<Publishing>)
    requires forall ch :: ch in list ==> ch < |s.chans|
    ensures OfferAll(s.(publishing := publishing), list, line) == OfferAll(s, list, line).(publishing := publishing)
    decreases |list|
  {
    if list != [] {
      assert list[0] in list && forall ch :: ch in list[1..] ==> ch in list;
      OfferAllIgnores(Offer(s, list[0], line), list[1..], line, publishing);
    }
  }

  /** One Publish with nobody else about is its own steps in the machine. */
  lemma PublishIsItsSteps(s: State, run: string, line: string)
    requires Inv(s) && s.publishing == []
    ensures forall ch :: ch in s.Subs(run) ==> ch < |s.chans|
    ensures var served := Serve(Apply(s, BeginPublish(run, line)));
            Enabled(served, EndPublish(0)) && Apply(served, EndPublish(0)) == OfferAll(s, s.Subs(run), line)
    ensures Inv(OfferAll(s, s.Subs(run), line))
  {
    assert forall ch :: ch in s.Subs(run) ==> Registered(s, run, ch);
    var begun := Apply(s, BeginPublish(run, line));
    ServeOffersAll(begun);
    OfferAllIgnores(s, s.Subs(run), line, begun.publishing);
    StepKeepsInv(s, BeginPublish(run, line));
    ServeKeepsInv(begun);
    StepKeepsInv(Serve(begun), EndPublish(0));
  }

  lemma {:induction false} ServeKeepsInv(s: State)
    requires Inv(s) && |s.publishing| == 1 && forall ch :: ch in s.publishing[0].rest ==> ch < |s.chans|
    ensures Inv(Serve(s))
    decreases |s.publishing[0].rest|
  {
    if s.publishing[0].rest != [] {
      assert s.publishing[0].rest[0] in s.publishing[0].rest;
      StepKeepsInv(s, Send(0));
      ServeKeepsInv(Apply(s, Send(0)));
    }
  }

  // What one line does to one channel that it is offered to.
  function Received(c: Chan, line: string): Chan {
    if |c.buf| < 64 then c.(buf := c.buf + [line]) else c
  }

  lemma {:induction false} OfferAllEffect(s: State, list: seq<nat>, line: string)
    requires Distinct(list) && forall ch :: ch in list ==> ch < |s.chans| && !s.chans[ch].closed
    ensures forall ch :: 0 <= ch < |s.chans| ==>
              OfferAll(s, list, line).chans[ch] == if ch in list then Received(s.chans[ch], line) else s.chans[ch]
    decreases |list|
  {
    if list != [] {
      assert list[0] in list && forall ch :: ch in list[1..] ==> ch in list;
      assert forall k :: 0 <= k < |list| - 1 ==> list[1..][k] == list[k + 1];
      OfferAllEffect(Offer(s, list[0], line), list[1..], line);
    }
  }

  /** Publishing appends the line to every channel of the run that holds fewer than 64, and changes no
      other channel and no list. */
  lemma PublishEffect(s: State, run: string, line: string)
    requires Inv(s)
    ensures forall ch :: ch in s.Subs(run) ==> ch < |s.chans|
    ensures var t := OfferAll(s, s.Subs(run), line);
            && t.subs == s.subs && |t.chans| == |s.chans|
            && (forall ch :: 0 <= ch < |s.chans| ==>
                  t.chans[ch] == if ch in s.Subs(run) then Received(s.chans[ch], line) else s.chans[ch])
  {
    SubsOpen(s, run);
    assert Distinct(s.Subs(run));
    OfferAllEffect(s, s.Subs(run), line);
  }

  class Broadcaster {
    var subs: map<string, seq<nat>>
    var chans: seq<Chan>
    var panicked: bool

    // The object between two of its critical sections.
    ghost function Now(): State
      reads this
    {
      State(subs, chans, [], panicked)
    }

    constructor ()
      ensures Now() == INIT && Inv(Now())
    {
      subs, chans, panicked := map[], [], false;
    }

    method Subscribe(run: string) returns (ch: nat)
      requires Inv(Now())
      modifies this
      ensures Now() == Apply(old(Now()), Step.Subscribe(run)) && Inv(Now())
      ensures ch == |old(chans)|
    {
      StepKeepsInv(Now(), Step.Subscribe(run));
      ch := |chans|;
      chans := chans + [Chan([], false)];
      subs := subs[run := (if run in subs then subs[run] else []) + [ch]];
    }

    method Unsub(run: string, ch: nat)
      requires Inv(Now())
      modifies this
      ensures Enabled(old(Now()), Step.Unsub(run, ch))
      ensures Now() == Apply(old(Now()), Step.Unsub(run, ch)) && Inv(Now())
    {
      assert forall c :: c in Now().Subs(run) ==> Registered(Now(), run, c);
      StepKeepsInv(Now(), Step.Unsub(run, ch));
      var list := if run in subs then subs[run] else [];
      for i := 0 to |list|
        invariant Now() == old(Now()) && ch !in list[..i]
      {
        if list[i] == ch {
          assert IndexOf(list, ch) == i by {
            IndexUnique(list, ch, i);
          }
          subs := subs[run := list[..i] + list[i + 1..]];
          CloseChannel(ch);
          break;
        }
      }
      if run !in subs || subs[run] == [] {
        subs := subs - {run};
      }
    }

    method CloseChannel(ch: nat)
      requires ch < |chans|
      modifies this`chans, this`panicked
      ensures Now() == CloseChan(old(Now()), ch)
    {
      if chans[ch].closed {
        panicked := true;
      } else {
        chans := chans[ch := chans[ch].(closed := true)];
      }
    }

    method OfferLine(ch: nat, line: string)
      requires ch < |chans|
      modifies this`chans, this`panicked
      ensures Now() == Offer(old(Now()), ch, line)
    {
      if chans[ch].closed {
        panicked := true;
      } else if |chans[ch].buf| < CHAN_BUFFER_SIZE {
        chans := chans[ch := chans[ch].(buf := chans[ch].buf + [line])];
      }
    }

    method Publish(run: string, line: string)
      requires Inv(Now())
      modifies this
      ensures forall ch :: ch in old(Now()).Subs(run) ==> ch < |old(chans)|
      ensures Now() == OfferAll(old(Now()), old(Now()).Subs(run), line) && Inv(Now())
    {
      PublishIsItsSteps(Now(), run, line);
      var list := if run in subs then subs[run] else [];
      assert forall k :: 0 <= k < |list| ==> list[k] in Now().Subs(run);
      for i := 0 to |list|
        invariant |chans| == |old(chans)|
        invariant forall k :: 0 <= k < |list| ==> list[k] < |chans|
        invariant OfferAll(Now(), list[i..], line) == OfferAll(old(Now()), list, line)
      {
        assert list[i..][0] == list[i] && list[i..][1..] == list[i + 1..];
        OfferLine(list[i], line);
      }
    }

    method Close(run: string)
      requires Inv(Now())
      modifies this
      ensures Enabled(old(Now()), Step.Close(run))
      ensures Now() == Apply(old(Now()), Step.Close(run)) && Inv(Now())
    {
      CloseReady(Now(), run);
      var list := if run in subs then subs[run] else [];
      for i := 0 to |list|
        invariant |chans| == |old(chans)|
        invariant forall k :: 0 <= k < |list| ==> list[k] < |chans|
        invariant CloseAll(Now(), list[i..]) == CloseAll(old(Now()), list)
      {
        assert list[i..][0] == list[i] && list[i..][1..] == list[i + 1..];
        CloseChannel(list[i]);
      }
      subs := subs - {run};
    }

    method IsActive(run: string) returns (active: bool)
      requires Inv(Now())
      ensures active <==> run in subs
    {
      active := run in subs && |subs[run]| > 0;
    }
  }

  lemma CloseReady(s: State, run: string)
    requires Inv(s) && s.publishing == []
    ensures forall i :: 0 <= i < |s.Subs(run)| ==> s.Subs(run)[i] < |s.chans|
    ensures Enabled(s, Close(run)) && Inv(Apply(s, Close(run)))
  {
    forall i | 0 <= i < |s.Subs(run)|
      ensures s.Subs(run)[i] < |s.chans|
    {
      assert Registered(s, run, s.Subs(run)[i]);
    }
    StepKeepsInv(s, Close(run));
  }

  lemma {:induction false} IndexUnique(list: seq<nat>, ch: nat, i: nat)
    requires i < |list| && list[i] == ch && ch !in list[..i]
    ensures IndexOf(list, ch) == i
  {
    if i > 0 {
      assert list[..i][0] == list[0];
      assert list[..i][1..] == list[1..][..i - 1];
      IndexUnique(list[1..], ch, i - 1);
    }
  }
}
