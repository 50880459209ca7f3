/** Capturing the log of one run only once: several handlers each look at the run's size, and then ask
    for a capture; a guard lets one capture run at a time; and a flush inserts lines before it accounts
    for them.  Each of these is a step, and they interleave. */
module CaptureOnce {

  // `size` is log_size_bytes.  `decided` counts the handlers that saw it at zero and have not asked
  // yet.  Of the capture at work, `wrote` says that it has inserted lines, and `owed` is what its
  // current flush has yet to account for.  `started` and `written` count the captures so far, and those
  // that have inserted lines.
  datatype State = State(size: nat, decided: nat, streaming: bool, wrote: bool, owed: nat, started: nat, written: nat)

  const INIT := State(0, 0, false, false, 0, 0, 0)

  datatype Step =
    | Check                            // a handler reads the size
    | Call                             // a handler that decided asks for a capture
    | Insert(bytes: nat, ok: bool)     // the insert of a flush
    | Size(ok: bool)                   // the size update of a flush
    | Finish                           // the capture ends and drops its guard

  predicate Enabled(s: State, step: Step) {
    match step
    case Check => true
    case Call => s.decided > 0
    case Insert(bytes, _) => s.streaming && s.owed == 0 && bytes > 0
    case Size(_) => s.owed > 0
    case Finish => s.streaming && s.owed == 0
  }

  function Apply(s: State, step: Step): State
    requires Enabled(s, step)
  {
    match step
    case Check => if s.size == 0 then s.(decided := s.decided + 1) else s
    case Call =>
      var asked := s.(decided := s.decided - 1);
      if s.streaming then asked else asked.(streaming := true, wrote := false, started := s.started + 1)
    case Insert(bytes, ok) =>
      s.(owed := bytes, wrote := s.wrote || ok, written := if ok && !s.wrote then s.written + 1 else s.written)
    case Size(ok) => s.(owed := 0, size := if ok then s.size + s.owed else s.size)
    case Finish => s.(streaming := false)
  }

  predicate Legal(s: State, steps: seq<Step>)
    decreases |steps|
  {
    steps == [] || (Enabled(s, steps[0]) && Legal(Apply(s, steps[0]), steps[1..]))
  }

  function Exec(s: State, steps: seq<Step>): State
    requires Legal(s, steps)
    decreases |steps|
  {
    if steps == [] then s else Exec(Apply(s, steps[0]), steps[1..])
  }

  ghost predicate Reaches(s: State, t: State) {
    exists steps :: Legal(s, steps) && Exec(s, steps) == t
  }

  // --- Another capture, exactly -------------------------------------------------------------------

  // Some way of going on starts one more capture.
  ghost predicate CanStart(s: State) {
    exists t :: Reaches(s, t) && t.started > s.started
  }

  lemma {:induction false} StartsBounded(s: State, steps: seq<Step>)
    requires Legal(s, steps) && s.size > 0
    ensures var t := Exec(s, steps); t.size > 0 && t.started + t.decided <= s.started + s.decided
    decreases |steps|
  {
    if steps != [] {
      StartsBounded(Apply(s, steps[0]), steps[1..]);
    }
  }

  lemma {:induction false} ExecOneMore(s: State, steps: seq<Step>, step: Step)
    requires Legal(s, steps) && Enabled(Exec(s, steps), step)
    ensures Legal(s, steps + [step]) && Exec(s, steps + [step]) == Apply(Exec(s, steps), step)
    decreases |steps|
  {
    if steps == [] {
      assert (steps + [step])[1..] == [];
    } else {
      assert (steps + [step])[1..] == steps[1..] + [step];
      ExecOneMore(Apply(s, steps[0]), steps[1..], step);
    }
  }

  lemma Stay(s: State)
    ensures Reaches(s, s)
  {
    assert Legal(s, []) && Exec(s, []) == s;
  }

  lemma Then(s: State, t: State, step: Step) returns (u: State)
    requires Reaches(s, t) && Enabled(t, step)
    ensures Reaches(s, u) && u == Apply(t, step)
  {
    var steps :| Legal(s, steps) && Exec(s, steps) == t;
    ExecOneMore(s, steps, step);
    u := Apply(t, step);
  }

  // A handler that decided can ask once the capture at work has ended.
  lemma DecidedCanStart(s: State, t: State) returns (u: State)
    requires Reaches(s, t) && t.decided > 0
    ensures Reaches(s, u) && u.started == t.started + 1 && u.streaming && !u.wrote && u.owed == 0 &&
            u.written == t.written
    ensures u.decided == t.decided - 1
  {
    u := t;
    if u.owed > 0 {
      u := Then(s, u, Size(true));
    }
    if u.streaming {
      u := Then(s, u, Finish);
    }
    u := Then(s, u, Call);
  }

  lemma DecideOne(s: State) returns (t: State)
    requires s.decided > 0 || s.size == 0
    ensures Reaches(s, t) && t.decided > 0 && t.started == s.started && t.written == s.written
  {
    Stay(s);
    t := s;
    if s.decided == 0 {
      t := Then(s, s, Check);
    }
  }

  /** Another capture can start if and only if a handler has decided on one already or the size still
      reads zero: nothing accounted for yet, or no size update gone through. */
  lemma CanStartIff(s: State)
    requires Consistent(s)
    ensures CanStart(s) <==> s.decided > 0 || s.size == 0
  {
    if s.decided > 0 || s.size == 0 {
      var t := DecideOne(s);
      var u := DecidedCanStart(s, t);
      assert Reaches(s, u) && u.started > s.started;
    }
    forall t | s.decided == 0 && s.size > 0 && Reaches(s, t)
      ensures t.started <= s.started
    {
      var steps :| Legal(s, steps) && Exec(s, steps) == t;
      StartsBounded(s, steps);
    }
  }

  /** Once anything is accounted for, no more captures start than handlers had decided by then. */
  lemma MoreStartsBounded(s: State, steps: seq<Step>)
    requires Legal(s, steps) && s.size > 0
    ensures Exec(s, steps).started <= s.started + s.decided
  {
    StartsBounded(s, steps);
  }

  // --- A log captured twice, exactly --------------------------------------------------------------

  // What every reachable state keeps: only a capture at work owes anything, and of the captures that
  // have ended or are at work, no more have written than were started.
  predicate Consistent(s: State) {
    && (s.owed > 0 ==> s.streaming)
    && s.written + (if s.streaming && !s.wrote then 1 else 0) <= s.started
    && (s.wrote ==> s.written >= 1)
  }

  lemma {:induction false} AlwaysConsistent(s: State, steps: seq<Step>)
    requires Legal(s, steps) && Consistent(s)
    ensures Consistent(Exec(s, steps)) && Exec(s, steps).written >= s.written
    decreases |steps|
  {
    if steps != [] {
      AlwaysConsistent(Apply(s, steps[0]), steps[1..]);
    }
  }

  // Some way of going on has one more capture write lines.
  ghost predicate CanWriteAgain(s: State) {
    exists t :: Reaches(s, t) && t.written > s.written
  }

  // With nothing decided and something accounted for, and the capture at work among those counted,
  // no other capture ever writes.
  predicate Settled(s: State) {
    s.decided == 0 && s.size > 0 && (s.streaming ==> s.wrote)
  }

  lemma {:induction false} SettledStays(s: State, steps: seq<Step>)
    requires Legal(s, steps) && Settled(s)
    ensures Settled(Exec(s, steps)) && Exec(s, steps).written == s.written
    decreases |steps|
  {
    if steps != [] {
      SettledStays(Apply(s, steps[0]), steps[1..]);
    }
  }

  lemma WriteNow(s: State, t: State) returns (u: State)
    requires Reaches(s, t) && t.streaming && !t.wrote
    ensures Reaches(s, u) && u.written == t.written + 1
  {
    u := t;
    if u.owed > 0 {
      u := Then(s, u, Size(true));
    }
    u := Then(s, u, Insert(1, true));
  }

  /** A further capture can write the log again if and only if one is at work that has not written yet,
      a handler has decided on one, or the size still reads zero. */
  lemma CanWriteAgainIff(s: State)
    requires Consistent(s)
    ensures CanWriteAgain(s) <==> (s.streaming && !s.wrote) || s.decided > 0 || s.size == 0
  {
    Stay(s);
    if s.streaming && !s.wrote {
      var u := WriteNow(s, s);
      assert Reaches(s, u) && u.written > s.written;
    } else if s.decided > 0 || s.size == 0 {
      var t := DecideOne(s);
      var started := DecidedCanStart(s, t);
      var u := WriteNow(s, started);
      assert Reaches(s, u) && u.written > s.written;
    } else {
      forall t | Reaches(s, t)
        ensures t.written <= s.written
      {
        var steps :| Legal(s, steps) && Exec(s, steps) == t;
        SettledStays(s, steps);
      }
    }
  }

  // --- When it is captured once -------------------------------------------------------------------

  // Size updates go through, and a handler asks right after it has decided.
  ghost predicate Undisturbed(s: State, steps: seq<Step>)
    requires Legal(s, steps)
    decreases |steps|
  {
    steps == [] ||
    (&& steps[0] != Size(false) && (s.decided > 0 ==> steps[0] == Call)
     && Undisturbed(Apply(s, steps[0]), steps[1..]))
  }

  // The one capture is at work, with nothing accounted for yet or something, or it has ended and
  // something is.
  predicate Once(s: State) {
    && s.decided <= 1 && s.written <= 1 && (s.owed > 0 ==> s.streaming)
    && (s.written == 1 ==> s.size > 0 || (s.streaming && s.wrote && s.owed > 0))
    && (s.written == 1 ==> (s.streaming ==> s.wrote) && (s.decided == 0 || s.streaming))
    && (s.decided > 0 ==> s.size == 0)
    && (s.wrote ==> s.written == 1)
  }

  lemma StepKeepsOnce(s: State, step: Step)
    requires Once(s) && Enabled(s, step) && step != Size(false) && (s.decided > 0 ==> step == Call)
    ensures Once(Apply(s, step))
  {
  }

  /** If every handler asks right after it has decided, and every size update goes through, then at most
      one capture ever writes lines, however captures, flushes and handlers interleave otherwise. */
  lemma {:induction false} CapturedOnce(s: State, steps: seq<Step>)
    requires Once(s) && Legal(s, steps) && Undisturbed(s, steps)
    ensures Exec(s, steps).written <= 1
    decreases |steps|
  {
    if steps != [] {
      StepKeepsOnce(s, steps[0]);
      CapturedOnce(Apply(s, steps[0]), steps[1..]);
    }
  }

  /** The check and the guard are not one step: a handler that looks before the first flush and asks
      after the capture has ended has the log captured twice, although every write goes through. */
  lemma CapturedTwice() returns (s: State)
    ensures Reaches(INIT, s) && s.written == 2 && s.started == 2
  {
    Stay(INIT);
    s := Then(INIT, INIT, Check);
    s := Then(INIT, s, Check);
    s := Then(INIT, s, Call);
    s := Then(INIT, s, Insert(1, true));
    s := Then(INIT, s, Size(true));
    s := Then(INIT, s, Finish);
    s := Then(INIT, s, Call);
    s := Then(INIT, s, Insert(1, true));
  }

  // A handler that asks has used up its decision, and starts a capture unless one is at work.
  lemma CallEffect(s: State)
    requires Enabled(s, Call)
    ensures var t := Apply(s, Call);
            && t.decided == s.decided - 1 && t.streaming
            && t.started == s.started + (if s.streaming then 0 else 1)
            && (if s.streaming then t.wrote == s.wrote else !t.wrote)
            && t.size == s.size && t.owed == s.owed && t.written == s.written
  {
  }

  // What the writes of a capture come to: bytes accounted for, and lines written or not.
  lemma WritesCount(s: State, bytes: nat, inserted: bool, sized: bool)
    requires Consistent(s) && Enabled(s, Insert(bytes, inserted))
    ensures var t := Apply(Apply(s, Insert(bytes, inserted)), Size(sized));
            && t.size == s.size + (if sized then bytes else 0) && t.owed == 0 && t.streaming
            && (t.wrote <==> s.wrote || inserted)
            && t.written == s.written + (if inserted && !s.wrote then 1 else 0)
            && t.started == s.started && t.decided == s.decided
  {
  }

  /** One handler after the other, each asking right after it has looked, still captures the log twice
      if the size update of the first capture fails. */
  lemma FailedSizeCapturesTwice() returns (s: State)
    ensures Reaches(INIT, s) && s.written == 2
  {
    Stay(INIT);
    s := Then(INIT, INIT, Check);
    s := Then(INIT, s, Call);
    s := Then(INIT, s, Insert(1, true));
    s := Then(INIT, s, Size(false));
    s := Then(INIT, s, Finish);
    s := Then(INIT, s, Check);
    s := Then(INIT, s, Call);
    s := Then(INIT, s, Insert(1, true));
  }
}
