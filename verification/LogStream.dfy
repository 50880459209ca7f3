/** Capturing the log of one run: the event loop that batches lines, and its flushes into the store
    and the broadcaster. */
module LogStream {
  import opened Store

  const FLUSH_MAX_LINES: nat := 200

  // What the select loop sees next.  A raw line has lost its line ending.
  datatype Event = Line(raw: string) | Tick | Closed | Cancelled

  // The lines of one flush and the bytes it accounts for.
  datatype Batch = Batch(texts: seq<string>, bytes: int)

  // Whether the insert, its commit, or the size update of a flush fails for an outside reason.
  datatype Fault = Fault(broken: nat, commit: bool, size: bool)

  // --- Specification: the flushes of an event sequence ------------------------------------------

  datatype Loop = Loop(batch: seq<string>, size: int, flushed: seq<Batch>, stopped: bool)

  const START := Loop([], 0, [], false)

  function Flushed(l: Loop): Loop {
    if l.batch == [] then l else l.(batch := [], size := 0, flushed := l.flushed + [Batch(l.batch, l.size)])
  }

  function Appended(l: Loop, clean: string -> string, raw: string): Loop {
    l.(batch := l.batch + [clean(raw)], size := l.size + |raw| + 1)
  }

  function Step(l: Loop, clean: string -> string, e: Event): Loop {
    if l.stopped then l
    else match e
      case Line(raw) =>
        var m := Appended(l, clean, raw);
        if |m.batch| >= FLUSH_MAX_LINES then Flushed(m) else m
      case Tick => Flushed(l)
      case Closed => Flushed(l).(stopped := true)
      case Cancelled => Flushed(l).(stopped := true)
  }

  function Loops(clean: string -> string, events: seq<Event>): Loop {
    if events == [] then START else Step(Loops(clean, events[..|events| - 1]), clean, events[|events| - 1])
  }

  function Texts(flushes: seq<Batch>): seq<string> {
    if flushes == [] then [] else Texts(flushes[..|flushes| - 1]) + flushes[|flushes| - 1].texts
  }

  function Bytes(flushes: seq<Batch>): int {
    if flushes == [] then 0 else Bytes(flushes[..|flushes| - 1]) + flushes[|flushes| - 1].bytes
  }

  // --- Independent reading: the lines before the first stop ---------------------------------------

  predicate Stops(e: Event) { e.Closed? || e.Cancelled? }

  predicate Stopped(events: seq<Event>) { exists e :: e in events && Stops(e) }

  function RawLines(events: seq<Event>): seq<string> {
    if events == [] || Stops(events[0]) then []
    else (if events[0].Line? then [events[0].raw] else []) + RawLines(events[1..])
  }

  function Cleaned(clean: string -> string, raws: seq<string>): seq<string> {
    seq(|raws|, i requires 0 <= i < |raws| => clean(raws[i]))
  }

  // Every line counts with the newline it has lost.
  function SizeOf(raws: seq<string>): int {
    if raws == [] then 0 else SizeOf(raws[..|raws| - 1]) + |raws[|raws| - 1]| + 1
  }

  lemma StoppedSnoc(events: seq<Event>, e: Event)
    ensures Stopped(events + [e]) <==> Stopped(events) || Stops(e)
  {
    assert e in events + [e] && forall d :: d in events ==> d in events + [e];
  }

  lemma StoppedTail(events: seq<Event>)
    requires events != []
    ensures Stopped(events) <==> Stops(events[0]) || Stopped(events[1..])
  {
    assert events == [events[0]] + events[1..];
    assert events[0] in events && forall d :: d in events[1..] ==> d in events;
  }

  lemma {:induction false} RawLinesSnoc(events: seq<Event>, e: Event)
    ensures RawLines(events + [e]) == RawLines(events) + if !Stopped(events) && e.Line? then [e.raw] else []
    ensures Stopped(events + [e]) <==> Stopped(events) || Stops(e)
  {
    StoppedSnoc(events, e);
    if events == [] {
      assert (events + [e])[1..] == [];
    } else {
      assert (events + [e])[1..] == events[1..] + [e];
      RawLinesSnoc(events[1..], e);
      StoppedTail(events);
    }
  }

  // All but the last `n`.
  function Drop(raws: seq<string>, n: nat): seq<string> {
    if n <= |raws| then raws[..|raws| - n] else []
  }

  lemma DropNone(raws: seq<string>)
    ensures Drop(raws, 0) == raws
  {
  }

  lemma DropSnoc(raws: seq<string>, raw: string, n: nat)
    requires n <= |raws|
    ensures Drop(raws + [raw], n + 1) == Drop(raws, n) && SizeOf(raws + [raw]) == SizeOf(raws) + |raw| + 1
  {
    assert (raws + [raw])[..|raws|] == raws;
  }

  // Everything read so far is flushed or waiting.
  ghost predicate Accounted(l: Loop, clean: string -> string, raws: seq<string>) {
    && Texts(l.flushed) + l.batch == Cleaned(clean, raws)
    && Bytes(l.flushed) + l.size == SizeOf(raws)
    && |l.batch| < FLUSH_MAX_LINES && l.size + SizeOf(Drop(raws, |l.batch|)) == SizeOf(raws)
    && (l.stopped ==> l.batch == [])
    && |l.batch| <= l.size && (l.batch == [] ==> l.size == 0)
    && forall f :: f in l.flushed ==> Sized(f)
  }

  predicate Sized(f: Batch) { 1 <= |f.texts| <= FLUSH_MAX_LINES && |f.texts| <= f.bytes }

  lemma FlushAccounted(l: Loop, m: Loop)
    requires m == Flushed(l) && l.batch != []
    ensures Texts(m.flushed) == Texts(l.flushed) + l.batch && Bytes(m.flushed) == Bytes(l.flushed) + l.size
    ensures forall f :: f in m.flushed ==> f in l.flushed || f == Batch(l.batch, l.size)
  {
    assert m.flushed[..|m.flushed| - 1] == l.flushed;
  }

  lemma FlushKeeps(l: Loop, clean: string -> string, raws: seq<string>)
    requires Texts(l.flushed) + l.batch == Cleaned(clean, raws) && Bytes(l.flushed) + l.size == SizeOf(raws)
    requires |l.batch| <= FLUSH_MAX_LINES && |l.batch| <= l.size && (l.batch == [] ==> l.size == 0)
    requires l.batch == [] ==> l.size + SizeOf(Drop(raws, 0)) == SizeOf(raws)
    requires forall f :: f in l.flushed ==> Sized(f)
    ensures Accounted(Flushed(l).(stopped := true), clean, raws) && Accounted(Flushed(l), clean, raws)
  {
    DropNone(raws);
    if l.batch != [] {
      FlushAccounted(l, Flushed(l));
    }
  }

  lemma LineAccounted(l: Loop, clean: string -> string, raws: seq<string>, raw: string)
    requires Accounted(l, clean, raws) && !l.stopped
    ensures Accounted(Step(l, clean, Line(raw)), clean, raws + [raw])
  {
    var m := Appended(l, clean, raw);
    assert Cleaned(clean, raws + [raw]) == Cleaned(clean, raws) + [clean(raw)];
    assert |Cleaned(clean, raws)| == |Texts(l.flushed)| + |l.batch|;
    DropSnoc(raws, raw, |l.batch|);
    FlushKeeps(m, clean, raws + [raw]);
  }

  lemma StepAccounted(l: Loop, clean: string -> string, raws: seq<string>, e: Event)
    requires Accounted(l, clean, raws)
    ensures Accounted(Step(l, clean, e), clean, raws + if !l.stopped && e.Line? then [e.raw] else [])
    ensures Step(l, clean, e).stopped <==> l.stopped || Stops(e)
  {
    assert raws + [] == raws;
    if !l.stopped {
      if e.Line? {
        LineAccounted(l, clean, raws, e.raw);
      } else {
        FlushKeeps(l, clean, raws);
      }
    }
  }

  lemma {:induction false} LoopAccounted(clean: string -> string, events: seq<Event>)
    ensures Accounted(Loops(clean, events), clean, RawLines(events))
    ensures Loops(clean, events).stopped <==> Stopped(events)
  {
    if events != [] {
      var before, e := events[..|events| - 1], events[|events| - 1];
      assert events == before + [e];
      LoopAccounted(clean, before);
      RawLinesSnoc(before, e);
      StepAccounted(Loops(clean, before), clean, RawLines(before), e);
    }
  }

  /** Once the stream has ended, the flushes hold the cleaned lines in order, each once, and account
      for every byte of the raw ones; no flush is empty or longer than the limit. */
  lemma Conservation(clean: string -> string, events: seq<Event>)
    requires Stopped(events)
    ensures var flushes := Loops(clean, events).flushed;
            && Texts(flushes) == Cleaned(clean, RawLines(events))
            && Bytes(flushes) == SizeOf(RawLines(events))
            && forall f :: f in flushes ==> Sized(f)
  {
    LoopAccounted(clean, events);
  }

  /** At every moment, the lines that are not flushed yet are the last ones read, fewer than the limit. */
  lemma OnlyTheTailWaits(clean: string -> string, events: seq<Event>)
    ensures var l := Loops(clean, events);
            && Texts(l.flushed) <= Cleaned(clean, RawLines(events))
            && |Cleaned(clean, RawLines(events))| - |Texts(l.flushed)| < FLUSH_MAX_LINES
  {
    LoopAccounted(clean, events);
  }

  // --- When a line is flushed, exactly ------------------------------------------------------------

  // How many lines came since the last tick.
  function SinceTick(events: seq<Event>): nat {
    if events == [] || events[|events| - 1].Tick? then 0
    else SinceTick(events[..|events| - 1]) + if events[|events| - 1].Line? then 1 else 0
  }

  // How many of the lines read so far are not flushed.
  function Waiting(events: seq<Event>): nat {
    if Stopped(events) then 0 else SinceTick(events) % 200
  }

  // The lines read so far without those that wait.
  function DueLines(events: seq<Event>): seq<string> {
    Drop(RawLines(events), Waiting(events))
  }

  lemma NextRemainder(n: nat)
    ensures (n + 1) % 200 == if n % 200 + 1 >= 200 then 0 else n % 200 + 1
  {
  }

  lemma StoppedIsEmpty(clean: string -> string, events: seq<Event>)
    ensures Loops(clean, events).stopped <==> Stopped(events)
    ensures Stopped(events) ==> Loops(clean, events).batch == []
  {
    LoopAccounted(clean, events);
  }

  lemma {:induction false} WaitingExactly(clean: string -> string, events: seq<Event>)
    ensures |Loops(clean, events).batch| == Waiting(events)
  {
    if events != [] {
      var before, e := events[..|events| - 1], events[|events| - 1];
      assert events == before + [e];
      WaitingExactly(clean, before);
      StoppedIsEmpty(clean, before);
      StoppedSnoc(before, e);
      StepWaits(Loops(clean, before), clean, e, SinceTick(before));
    }
  }

  lemma StepWaits(l: Loop, clean: string -> string, e: Event, n: nat)
    requires if l.stopped then l.batch == [] else |l.batch| == n % 200
    ensures |Step(l, clean, e).batch| ==
            if l.stopped || Stops(e) || e.Tick? then 0 else (n + 1) % 200
  {
    NextRemainder(n);
  }

  /** At every moment the lines that are not flushed are the last ones, as many as the lines since the
      last tick leave over when they are counted off in batches of 200, and none after a stop; all the
      others are flushed, cleaned and in order, with their bytes accounted for. */
  lemma FlushedExactly(clean: string -> string, events: seq<Event>)
    ensures var l := Loops(clean, events);
            && Texts(l.flushed) == Cleaned(clean, DueLines(events)) && Bytes(l.flushed) == SizeOf(DueLines(events))
            && Texts(l.flushed) + l.batch == Cleaned(clean, RawLines(events))
  {
    LoopAccounted(clean, events);
    WaitingExactly(clean, events);
    var l, raws := Loops(clean, events), RawLines(events);
    CutAt(Texts(l.flushed), l.batch, clean, raws);
  }

  lemma CutAt(flushed: seq<string>, batch: seq<string>, clean: string -> string, raws: seq<string>)
    requires flushed + batch == Cleaned(clean, raws)
    ensures flushed == Cleaned(clean, Drop(raws, |batch|))
  {
    assert |flushed| + |batch| == |raws|;
    assert flushed == Cleaned(clean, raws)[..|raws| - |batch|];
  }

  /** A tick flushes all that was read. */
  lemma TickFlushesAll(clean: string -> string, events: seq<Event>)
    requires !Stopped(events)
    ensures Texts(Loops(clean, events + [Tick]).flushed) == Cleaned(clean, RawLines(events))
    ensures Bytes(Loops(clean, events + [Tick]).flushed) == SizeOf(RawLines(events))
  {
    FlushedExactly(clean, events + [Tick]);
    StoppedSnoc(events, Tick);
    RawLinesSnoc(events, Tick);
    DropNone(RawLines(events));
    assert RawLines(events) + [] == RawLines(events);
  }

  lemma {:induction false} FlushedGrows(clean: string -> string, events: seq<Event>, more: seq<Event>)
    ensures Texts(Loops(clean, events).flushed) <= Texts(Loops(clean, events + more).flushed)
    decreases |more|
  {
    if more == [] {
      assert events + more == events;
    } else {
      var all, n := events + more, |more| - 1;
      assert all[..|all| - 1] == events + more[..n];
      FlushedGrows(clean, events, more[..n]);
      StepFlushesMore(Loops(clean, events + more[..n]), clean, more[n]);
      PrefixChain(Texts(Loops(clean, events).flushed), Texts(Loops(clean, all[..|all| - 1]).flushed),
                  Texts(Loops(clean, all).flushed));
    }
  }

  lemma PrefixChain(a: seq<string>, b: seq<string>, c: seq<string>)
    requires a <= b <= c
    ensures a <= c
  {
  }

  lemma StepFlushesMore(l: Loop, clean: string -> string, e: Event)
    ensures Texts(l.flushed) <= Texts(Step(l, clean, e).flushed)
  {
    var m := if e.Line? then Appended(l, clean, e.raw) else l;
    if m.batch != [] {
      FlushAccounted(m, Flushed(m));
    }
  }

  /** Whatever comes after a tick, the lines read before it stay flushed: only later ones wait. */
  lemma OnlyLaterLinesWait(clean: string -> string, events: seq<Event>, more: seq<Event>)
    requires !Stopped(events)
    ensures Cleaned(clean, RawLines(events)) <= Texts(Loops(clean, events + [Tick] + more).flushed)
  {
    TickFlushesAll(clean, events);
    FlushedGrows(clean, events + [Tick], more);
  }

  // --- Effect on the store ------------------------------------------------------------------------

  predicate InsertFails(f: Batch, fault: Fault) { fault.broken < |f.texts| || fault.commit }

  // A failed insert does not keep the size update from being issued.
  function FlushEffect(t: Tables, id: string, f: Batch, fault: Fault): Tables {
    After(After(t, Write(BatchInsertLogLines(id, f.texts), InsertFails(f, fault))),
      Write(AddLogSize(id, f.bytes), fault.size))
  }

  function Stored(t: Tables, id: string, flushes: seq<Batch>, faults: nat -> Fault): Tables {
    if flushes == [] then t
    else FlushEffect(Stored(t, id, flushes[..|flushes| - 1], faults), id, flushes[|flushes| - 1], faults(|flushes| - 1))
  }

  // The lines of the flushes whose insert went through.
  function LandedTexts(flushes: seq<Batch>, faults: nat -> Fault): seq<string> {
    if flushes == [] then []
    else
      var last := flushes[|flushes| - 1];
      LandedTexts(flushes[..|flushes| - 1], faults) + if InsertFails(last, faults(|flushes| - 1)) then []
        else last.texts
  }

  // The bytes of the flushes whose size update went through.
  function LandedBytes(flushes: seq<Batch>, faults: nat -> Fault): int {
    if flushes == [] then 0
    else LandedBytes(flushes[..|flushes| - 1], faults) + if faults(|flushes| - 1).size then 0
      else flushes[|flushes| - 1].bytes
  }

  // The store with nothing moved but the log of one run.
  function WithLog(t: Tables, id: string, texts: seq<string>, bytes: int): Tables
    requires id in t.runs
  {
    t.(lines := t.lines + Rows(id, texts), runs := t.runs[id := t.runs[id].(logSize := t.runs[id].logSize + bytes)])
  }

  lemma RowsConcat(id: string, a: seq<string>, b: seq<string>)
    ensures Rows(id, a) + Rows(id, b) == Rows(id, a + b)
  {
  }

  lemma FlushLands(t: Tables, id: string, texts: seq<string>, bytes: int, f: Batch, fault: Fault)
    requires id in t.runs
    ensures FlushEffect(WithLog(t, id, texts, bytes), id, f, fault) ==
            WithLog(t, id, texts + (if InsertFails(f, fault) then [] else f.texts),
                    bytes + if fault.size then 0 else f.bytes)
  {
    var u := WithLog(t, id, texts, bytes);
    RowsConcat(id, texts, f.texts);
    assert texts + [] == texts;
    assert u.lines + Rows(id, f.texts) == t.lines + Rows(id, texts + f.texts);
  }

  /** What capturing leaves behind, for any failures: the run's lines grow by the batches whose insert
      went through and its size by those whose size update did; nothing else in the store moves. */
  lemma {:induction false} StoredExactly(t: Tables, id: string, flushes: seq<Batch>, faults: nat -> Fault)
    requires id in t.runs
    ensures Stored(t, id, flushes, faults) == WithLog(t, id, LandedTexts(flushes, faults), LandedBytes(flushes, faults))
  {
    if flushes == [] {
      assert t.runs[id := t.runs[id]] == t.runs;
      assert t.lines + Rows(id, []) == t.lines;
    } else {
      var n := |flushes| - 1;
      var before, last := flushes[..n], flushes[n];
      StoredExactly(t, id, before, faults);
      var texts, bytes := LandedTexts(before, faults), LandedBytes(before, faults);
      FlushLands(t, id, texts, bytes, last, faults(n));
      LandedSnoc(flushes, faults);
      StoredSnoc(t, id, flushes, faults);
    }
  }

  lemma LandedSnoc(flushes: seq<Batch>, faults: nat -> Fault)
    requires flushes != []
    ensures var before, last, fault := flushes[..|flushes| - 1], flushes[|flushes| - 1], faults(|flushes| - 1);
            && LandedTexts(flushes, faults) ==
               LandedTexts(before, faults) + (if InsertFails(last, fault) then [] else last.texts)
            && LandedBytes(flushes, faults) == LandedBytes(before, faults) + if fault.size then 0 else last.bytes
  {
  }

  lemma StoredSnoc(t: Tables, id: string, flushes: seq<Batch>, faults: nat -> Fault)
    requires flushes != []
    ensures Stored(t, id, flushes, faults) ==
            FlushEffect(Stored(t, id, flushes[..|flushes| - 1], faults), id, flushes[|flushes| - 1],
              faults(|flushes| - 1))
  {
  }

  // A run that has no row keeps none of its log, and nothing else changes either.
  lemma {:induction false} NothingWithoutRow(t: Tables, id: string, flushes: seq<Batch>, faults: nat -> Fault)
    requires id !in t.runs && forall f :: f in flushes ==> Sized(f)
    ensures Stored(t, id, flushes, faults) == t
  {
    if flushes != [] {
      NothingWithoutRow(t, id, flushes[..|flushes| - 1], faults);
      assert Sized(flushes[|flushes| - 1]);
    }
  }

  predicate Healthy(flushes: seq<Batch>, faults: nat -> Fault) {
    forall i :: 0 <= i < |flushes| ==> !InsertFails(flushes[i], faults(i)) && !faults(i).size
  }

  lemma {:induction false} HealthyLandsAll(flushes: seq<Batch>, faults: nat -> Fault)
    requires Healthy(flushes, faults)
    ensures LandedTexts(flushes, faults) == Texts(flushes) && LandedBytes(flushes, faults) == Bytes(flushes)
  {
    if flushes != [] {
      HealthyLandsAll(flushes[..|flushes| - 1], faults);
    }
  }

  /** With successful writes, a captured run holds what it held plus the cleaned lines in order, and
      its size has grown by the length of every raw line plus one. */
  lemma CapturedExactly(t: Tables, id: string, clean: string -> string, events: seq<Event>, faults: nat -> Fault)
    requires id in t.runs && Stopped(events) && Healthy(Loops(clean, events).flushed, faults)
    ensures Stored(t, id, Loops(clean, events).flushed, faults) ==
            WithLog(t, id, Cleaned(clean, RawLines(events)), SizeOf(RawLines(events)))
  {
    var flushes := Loops(clean, events).flushed;
    Conservation(clean, events);
    HealthyLandsAll(flushes, faults);
    StoredExactly(t, id, flushes, faults);
  }

  lemma WithLogLines(t: Tables, id: string, texts: seq<string>, bytes: int, other: string)
    requires id in t.runs
    ensures Of(WithLog(t, id, texts, bytes).lines, other) ==
            if other == id then Of(t.lines, id) + texts else Of(t.lines, other)
  {
    OfConcat(t.lines, Rows(id, texts), other);
    OfRows(id, texts, other);
    assert Of(t.lines, other) + [] == Of(t.lines, other);
  }

  lemma {:induction false} StopsForGood(clean: string -> string, events: seq<Event>, i: nat)
    requires i <= |events| && Loops(clean, events[..i]).stopped
    ensures Loops(clean, events) == Loops(clean, events[..i])
  {
    if i == |events| {
      assert events[..i] == events;
    } else {
      assert events[..|events| - 1][..i] == events[..i];
      StopsForGood(clean, events[..|events| - 1], i);
    }
  }

  /** The goroutine that captures the log of one run. */
  class Capture {
    const store: SQLiteStore
    const id: string
    const clean: string -> string
    var batch: seq<string>
    var size: int
    // The lines handed to the broadcaster, in order.
    var published: seq<string>
    ghost var flushed: seq<Batch>

    constructor (store: SQLiteStore, id: string, clean: string -> string)
      ensures this.store == store && this.id == id && this.clean == clean
      ensures batch == [] && size == 0 && published == [] && flushed == []
    {
      this.store, this.id, this.clean := store, id, clean;
      batch, size, published, flushed := [], 0, [], [];
    }

    ghost function State(stopped: bool): Loop
      reads this
    {
      Loop(batch, size, flushed, stopped)
    }

    method Publish(line: string)
      modifies this`published
      ensures published == old(published) + [line]
    {
      published := published + [line];
    }

    method Append(raw: string)
      modifies this`batch, this`size
      ensures State(false) == Appended(old(State(false)), clean, raw)
    {
      batch := batch + [clean(raw)];
      size := size + |raw| + 1;
    }

    // What the flushes so far have done to the store, as it was at first, and to the broadcaster.
    ghost predicate Delivered(was: Tables, flushes: nat, faults: nat -> Fault)
      reads this, store
    {
      flushes == |flushed| && store.tables == Stored(was, id, flushed, faults) && published == Texts(flushed)
    }

    method Flush(ghost was: Tables, flushes: nat, faults: nat -> Fault) returns (more: nat)
      requires Delivered(was, flushes, faults)
      modifies this, store
      ensures State(false) == Flushed(old(State(false))) && Delivered(was, more, faults)
    {
      if batch == [] {
        return flushes;
      }
      var inserted := store.BatchInsertLogLines(id, batch, faults(flushes).broken, faults(flushes).commit);
      var sized := store.Exec(AddLogSize(id, size), faults(flushes).size);
      for i := 0 to |batch|
        invariant batch == old(batch) && size == old(size) && flushed == old(flushed)
        invariant published == old(published) + batch[..i]
        invariant store.tables == FlushEffect(old(store.tables), id, Batch(batch, size), faults(flushes))
      {
        Publish(batch[i]);
      }
      FlushSnoc(was, id, flushed, Batch(batch, size), faults);
      flushed := flushed + [Batch(batch, size)];
      batch, size := [], 0;
      more := flushes + 1;
    }

    // One case of the select.
    method Handle(e: Event, ghost was: Tables, flushes: nat, faults: nat -> Fault) returns (more: nat)
      requires Delivered(was, flushes, faults)
      modifies this, store
      ensures State(Stops(e)) == Step(old(State(false)), clean, e) && Delivered(was, more, faults)
    {
      more := flushes;
      match e
      case Line(raw) =>
        Append(raw);
        if |batch| >= FLUSH_MAX_LINES {
          more := Flush(was, flushes, faults);
        }
      case _ => more := Flush(was, flushes, faults);
    }

    /** Consumes events until the stream ends; the k-th flush meets the k-th fault. */
    method StreamLogs(events: seq<Event>, faults: nat -> Fault)
      requires State(false) == START && published == []
      modifies this, store
      ensures flushed == Loops(clean, events).flushed && batch == Loops(clean, events).batch
      ensures store.tables == Stored(old(store.tables), id, flushed, faults)
      ensures published == Texts(flushed) == Cleaned(clean, DueLines(events))
      ensures id in old(store.tables.runs) && Healthy(flushed, faults) ==>
                store.tables == WithLog(old(store.tables), id, Cleaned(clean, DueLines(events)),
                  SizeOf(DueLines(events)))
    {
      StoredWhenDue(store.tables, id, clean, events, faults);
      ghost var was := store.tables;
      var flushes := 0;
      for i := 0 to |events|
        invariant State(false) == Loops(clean, events[..i])
        invariant Delivered(was, flushes, faults)
      {
        LoopsSnoc(clean, events, i);
        flushes := Handle(events[i], was, flushes, faults);
        if events[i].Closed? || events[i].Cancelled? {
          StopsForGood(clean, events, i + 1);
          return;
        }
      }
      assert events[..|events|] == events;
    }
  }

  /** The store and the broadcaster have the lines that are due: with successful writes, the run's lines
      grow by these and no others, and its size by their bytes. */
  lemma StoredWhenDue(t: Tables, id: string, clean: string -> string, events: seq<Event>, faults: nat -> Fault)
    ensures Texts(Loops(clean, events).flushed) == Cleaned(clean, DueLines(events))
    ensures id in t.runs && Healthy(Loops(clean, events).flushed, faults) ==>
              Stored(t, id, Loops(clean, events).flushed, faults) ==
              WithLog(t, id, Cleaned(clean, DueLines(events)), SizeOf(DueLines(events)))
  {
    FlushedExactly(clean, events);
    if id in t.runs && Healthy(Loops(clean, events).flushed, faults) {
      HealthyLandsAll(Loops(clean, events).flushed, faults);
      StoredExactly(t, id, Loops(clean, events).flushed, faults);
    }
  }

  lemma LoopsSnoc(clean: string -> string, events: seq<Event>, i: nat)
    requires i < |events|
    ensures Loops(clean, events[..i + 1]) == Step(Loops(clean, events[..i]), clean, events[i])
  {
    assert events[..i + 1][..i] == events[..i];
  }

  lemma FlushSnoc(was: Tables, id: string, flushed: seq<Batch>, f: Batch, faults: nat -> Fault)
    ensures Stored(was, id, flushed + [f], faults) ==
            FlushEffect(Stored(was, id, flushed, faults), id, f, faults(|flushed|))
    ensures Texts(flushed + [f]) == Texts(flushed) + f.texts
  {
    assert (flushed + [f])[..|flushed|] == flushed;
  }
}
