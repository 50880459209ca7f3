/** Past and future occurrences of a CronJob schedule, and the missed-run verdict.

    Instants are integer nanoseconds.  A schedule is the set of instants at which it fires,
    together with the forward-only `next` of the cron library; cron expressions and time zones are
    resolved by that library and do not appear. */
module Schedule {
  import opened Common

  const HOUR := 3_600_000_000_000
  const MINUTE := 60_000_000_000
  const MAX_LOOKBACK := 400 * 24 * HOUR
  const MAX_PROBES: nat := 2000
  const GRACE := 5 * MINUTE
  // The cron library gives up when it has looked through the current year and the five after it.
  const SEARCH_LIMIT := 6 * 366 * 24 * HOUR

  // Go's time.Duration: signed 64-bit nanoseconds.
  newtype Duration = d: int | -0x8000_0000_0000_0000 <= d < 0x8000_0000_0000_0000

  // What Next answers: the first occurrence after an instant, or Go's zero time.
  const ZERO_TIME := 0

  datatype Schedule = Schedule(occurs: int -> bool, next: int -> Option<int>) {
    // All that is asked of the library: an answer is the first occurrence after `t`, and no
    // answer means that nothing occurs for as long as this package ever looks.
    ghost predicate Valid() {
      forall t :: NextIsFirst(t)
    }

    ghost predicate NextIsFirst(t: int) {
      match next(t)
      case Some(n) => t < n <= t + SEARCH_LIMIT && occurs(n) && forall u :: t < u < n ==> !occurs(u)
      case None => forall u :: t < u <= t + MAX_LOOKBACK ==> !occurs(u)
    }
  }

  // --- Declarative vocabulary -----------------------------------------------------------------

  ghost function Occurrences(s: Schedule, lo: int, hi: int): set<int> {
    set o | lo < o <= hi && s.occurs(o)
  }

  ghost predicate Latest(s: Schedule, now: int, p: int) {
    p <= now && s.occurs(p) && forall o :: p < o <= now ==> !s.occurs(o)
  }

  function Min(a: int, b: int): int { if a < b then a else b }

  function Max(a: int, b: int): int { if a < b then b else a }

  lemma SubsetSmaller(a: set<int>, b: set<int>)
    requires a <= b
    ensures |a| <= |b|
    ensures |a| == |b| ==> a == b
    ensures |b - a| == |b| - |a|
  {
    assert b == a + (b - a);
  }

  lemma PeelFirst(s: Schedule, lo: int, hi: int)
    requires s.Valid() && hi - lo <= MAX_LOOKBACK
    ensures var first := s.next(lo);
            if first.Some? && first.value <= hi
            then Occurrences(s, lo, hi) == {first.value} + Occurrences(s, first.value, hi) &&
                 |Occurrences(s, lo, hi)| == 1 + |Occurrences(s, first.value, hi)|
            else Occurrences(s, lo, hi) == {}
  {
    var first := s.next(lo);
    assert s.NextIsFirst(lo);
    if first.Some? && first.value <= hi {
      assert Occurrences(s, lo, hi) == {first.value} + Occurrences(s, first.value, hi);
      assert first.value !in Occurrences(s, first.value, hi);
    }
  }

  // --- walk -----------------------------------------------------------------------------------

  // The last occurrence in (from, to] that `probes` steps reach.
  function LastWithin(s: Schedule, from: int, to: int, probes: nat): Option<int>
    decreases probes, from
  {
    if probes == 0 then None
    else
      match s.next(from)
      case None => None
      case Some(n) => if n > to then None else OrElse(LastWithin(s, n, to, probes - 1), Some(n))
  }

  method Walk(s: Schedule, from: int, to: int) returns (prev: int, found: bool)
    ensures (if found then Some(prev) else None) == LastWithin(s, from, to, MAX_PROBES)
  {
    prev, found := ZERO_TIME, false;
    var t := from;
    for i := 0 to MAX_PROBES
      invariant OrElse(LastWithin(s, t, to, MAX_PROBES - i), if found then Some(prev) else None) ==
                LastWithin(s, from, to, MAX_PROBES)
    {
      var next := s.next(t);
      if next.None? || next.value > to {
        return;
      }
      prev, found := next.value, true;
      t := next.value;
    }
  }

  /** A walk over a window of at most the look-back returns exactly the min(count, probes)-th
      occurrence in it, counted from the start of the window. */
  lemma {:induction false} WalkReachesNth(s: Schedule, from: int, to: int, probes: nat)
    requires s.Valid() && to - from <= MAX_LOOKBACK
    ensures var r, count := LastWithin(s, from, to, probes), |Occurrences(s, from, to)|;
            && (r.None? <==> probes == 0 || count == 0)
            && (r.Some? ==> r.value in Occurrences(s, from, to) &&
                            |Occurrences(s, from, r.value)| == Min(count, probes))
    decreases probes, from
  {
    PeelFirst(s, from, to);
    var first := s.next(from);
    if probes > 0 && first.Some? && first.value <= to {
      var n := first.value;
      WalkReachesNth(s, n, to, probes - 1);
      var r := LastWithin(s, from, to, probes).value;
      PeelFirst(s, from, r);
      if LastWithin(s, n, to, probes - 1).None? {
        assert Occurrences(s, n, n) == {};
      }
    }
  }

  // --- PrevRun --------------------------------------------------------------------------------

  function Cadence(s: Schedule, now: int): int {
    match s.next(now)
    case None => MAX_LOOKBACK
    case Some(first) =>
      match s.next(first)
      case None => MAX_LOOKBACK
      case Some(second) => second - first
  }

  function FirstWindow(s: Schedule, now: int): int {
    Max(2 * Cadence(s, now), HOUR)
  }

  // The widening search, from a given window on.
  function Search(s: Schedule, now: int, window: int): Option<int>
    requires window > 0
    decreases MAX_LOOKBACK - window
  {
    var w := Min(window, MAX_LOOKBACK);
    var r := LastWithin(s, now - w, now, MAX_PROBES);
    if r.Some? || w >= MAX_LOOKBACK then r else Search(s, now, 4 * w)
  }

  // The window whose walk decides the answer.
  function DecidingWindow(s: Schedule, now: int, window: int): int
    requires window > 0
    decreases MAX_LOOKBACK - window
  {
    var w := Min(window, MAX_LOOKBACK);
    if LastWithin(s, now - w, now, MAX_PROBES).Some? || w >= MAX_LOOKBACK then w else DecidingWindow(s, now, 4 * w)
  }

  // How many windows are walked before the search answers.
  function Walks(s: Schedule, now: int, window: int): nat
    requires window > 0
    decreases MAX_LOOKBACK - window
  {
    var w := Min(window, MAX_LOOKBACK);
    if LastWithin(s, now - w, now, MAX_PROBES).Some? || w >= MAX_LOOKBACK then 1 else 1 + Walks(s, now, 4 * w)
  }

  /** The search never takes more than eight walks. */
  lemma AtMostEightWalks(s: Schedule, now: int)
    ensures Walks(s, now, FirstWindow(s, now)) <= 8
  {
    assert Pow4(7) == 16384 by {
      assert Pow4(3) == 64;
    }
    WalksFrom(s, now, FirstWindow(s, now), 7);
  }

  lemma {:induction false} WalksFrom(s: Schedule, now: int, window: int, left: nat)
    requires window > 0 && Pow4(left) * window >= MAX_LOOKBACK
    ensures Walks(s, now, window) <= 1 + left
    decreases left
  {
    if window < MAX_LOOKBACK && left > 0 {
      assert Pow4(left) * window == Pow4(left - 1) * (4 * window);
      WalksFrom(s, now, 4 * window, left - 1);
    }
  }

  function Pow4(n: nat): nat { if n == 0 then 1 else 4 * Pow4(n - 1) }

  function Previous(s: Schedule, now: int): Option<int> {
    Search(s, now, FirstWindow(s, now))
  }

  // time.Time.Sub saturates at the ends of the Duration range.
  function Sub(a: int, b: int): Duration {
    if a - b >= 0x8000_0000_0000_0000 then 0x7FFF_FFFF_FFFF_FFFF
    else if a - b < -0x8000_0000_0000_0000 then -0x8000_0000_0000_0000
    else (a - b) as Duration
  }

  method EstimateCadence(s: Schedule, now: int) returns (d: Duration)
    requires s.Valid()
    ensures d as int == Cadence(s, now) && 0 < d as int <= SEARCH_LIMIT
  {
    var first := s.next(now);
    assert s.NextIsFirst(now);
    if first.None? {
      return MAX_LOOKBACK as Duration;
    }
    var second := s.next(first.value);
    assert s.NextIsFirst(first.value);
    if second.None? {
      return MAX_LOOKBACK as Duration;
    }
    d := Sub(second.value, first.value);
  }

  /** PrevRun on the outcome of parsing.  No step of the search leaves the 64-bit range of a
      duration: every `window` below is a Duration. */
  method PrevRun(parsed: Option<Schedule>, now: int) returns (r: Option<int>)
    requires parsed.Some? ==> parsed.value.Valid()
    ensures r == if parsed.None? then None else Previous(parsed.value, now)
  {
    if parsed.None? {
      return None;
    }
    var s := parsed.value;
    var cadence := EstimateCadence(s, now);
    var window: Duration := 2 * cadence;
    if window < HOUR as Duration {
      window := HOUR as Duration;
    }
    r := Widen(s, now, window);
  }

  method Widen(s: Schedule, now: int, start: Duration) returns (r: Option<int>)
    requires 0 < start as int <= 2 * SEARCH_LIMIT
    ensures r == Search(s, now, start as int)
  {
    var window := start;
    while true
      invariant 0 < window as int <= 2 * SEARCH_LIMIT
      invariant Search(s, now, window as int) == Search(s, now, start as int)
      decreases MAX_LOOKBACK - window as int
    {
      if window > MAX_LOOKBACK as Duration {
        window := MAX_LOOKBACK as Duration;
      }
      var prev, found := Walk(s, now - window as int, now);
      if found {
        return Some(prev);
      }
      if window >= MAX_LOOKBACK as Duration {
        break;
      }
      window := window * 4;
    }
    return None;
  }

  // --- What PrevRun means ---------------------------------------------------------------------

  // The probe cap does not bite: the deciding window holds no more occurrences than one walk steps.
  ghost predicate Unclipped(s: Schedule, now: int) {
    |Occurrences(s, now - DecidingWindow(s, now, FirstWindow(s, now)), now)| <= MAX_PROBES
  }

  lemma {:induction false} SearchIsAWalk(s: Schedule, now: int, window: int)
    requires window > 0
    ensures var w := DecidingWindow(s, now, window);
            && 0 < w <= MAX_LOOKBACK
            && Search(s, now, window) == LastWithin(s, now - w, now, MAX_PROBES)
            && (Search(s, now, window).None? ==> w == MAX_LOOKBACK)
    decreases MAX_LOOKBACK - window
  {
    var w := Min(window, MAX_LOOKBACK);
    if LastWithin(s, now - w, now, MAX_PROBES).None? && w < MAX_LOOKBACK {
      SearchIsAWalk(s, now, 4 * w);
    }
  }

  lemma PreviousIsAWalk(s: Schedule, now: int) returns (w: int)
    ensures 0 < w <= MAX_LOOKBACK
    ensures Previous(s, now) == LastWithin(s, now - w, now, MAX_PROBES)
    ensures Previous(s, now).None? ==> w == MAX_LOOKBACK
    ensures Unclipped(s, now) <==> |Occurrences(s, now - w, now)| <= MAX_PROBES
  {
    w := DecidingWindow(s, now, FirstWindow(s, now));
    SearchIsAWalk(s, now, FirstWindow(s, now));
  }

  /** PrevRun fails exactly when nothing fired within the look-back, and otherwise answers with
      an instant at which the schedule did fire within it. */
  lemma PrevRunFinds(s: Schedule, now: int)
    requires s.Valid()
    ensures Previous(s, now).None? <==> Occurrences(s, now - MAX_LOOKBACK, now) == {}
    ensures Previous(s, now).Some? ==> Previous(s, now).value in Occurrences(s, now - MAX_LOOKBACK, now)
  {
    var w := PreviousIsAWalk(s, now);
    WalkReachesNth(s, now - w, now, MAX_PROBES);
    WiderWindow(s, now, w);
  }

  lemma WiderWindow(s: Schedule, now: int, w: int)
    requires w <= MAX_LOOKBACK
    ensures Occurrences(s, now - w, now) <= Occurrences(s, now - MAX_LOOKBACK, now)
    ensures Occurrences(s, now - w, now) != {} <==> |Occurrences(s, now - w, now)| != 0
  {
  }

  // A walk ends on the last occurrence of its window unless it runs out of probes.
  lemma WalkIsLatestIff(s: Schedule, from: int, to: int)
    requires s.Valid() && to - from <= MAX_LOOKBACK && LastWithin(s, from, to, MAX_PROBES).Some?
    ensures Latest(s, to, LastWithin(s, from, to, MAX_PROBES).value) <==> |Occurrences(s, from, to)| <= MAX_PROBES
  {
    var p := LastWithin(s, from, to, MAX_PROBES).value;
    WalkReachesNth(s, from, to, MAX_PROBES);
    var upTo, all := Occurrences(s, from, p), Occurrences(s, from, to);
    assert all - upTo == Occurrences(s, p, to);
    SubsetSmaller(upTo, all);
    if |all| <= MAX_PROBES {
      assert Occurrences(s, p, to) == {};
      assert forall o :: p < o <= to && s.occurs(o) ==> o in Occurrences(s, p, to);
    } else {
      var o :| o in Occurrences(s, p, to);
    }
  }

  /** PrevRun answers with the most recent occurrence if and only if the deciding window is within
      the probe cap; then nothing fires between PrevRun and NextRun. */
  lemma PrevRunIsLatestIff(s: Schedule, now: int)
    requires s.Valid() && Previous(s, now).Some?
    ensures Latest(s, now, Previous(s, now).value) <==> Unclipped(s, now)
    ensures Unclipped(s, now) && s.next(now).Some? ==>
              Occurrences(s, Previous(s, now).value, s.next(now).value - 1) == {}
  {
    var w := PreviousIsAWalk(s, now);
    WalkIsLatestIff(s, now - w, now);
    assert s.NextIsFirst(now);
  }

  // The i-th window that the search would try, if it were not clamped.
  function NthWindow(s: Schedule, now: int, i: nat): int {
    FirstWindow(s, now) * Pow4(i)
  }

  /** The window that decides is the first of FirstWindow, four times it, and so on, clamped to the
      look-back, in which anything fired; the probe cap has no part in that. */
  lemma DecidingWindowIsFirstFiring(s: Schedule, now: int) returns (k: nat)
    requires s.Valid()
    ensures var w := DecidingWindow(s, now, FirstWindow(s, now));
            && w == Min(NthWindow(s, now, k), MAX_LOOKBACK)
            && (Occurrences(s, now - w, now) != {} || w == MAX_LOOKBACK)
    ensures forall j :: 0 <= j < k ==>
            NthWindow(s, now, j) < MAX_LOOKBACK && Occurrences(s, now - NthWindow(s, now, j), now) == {}
  {
    k := FiringFrom(s, now, 0);
  }

  lemma {:induction false} FiringFrom(s: Schedule, now: int, i: nat) returns (k: nat)
    requires s.Valid()
    ensures i <= k && NthWindow(s, now, i) > 0
    ensures var w := DecidingWindow(s, now, NthWindow(s, now, i));
            && w == Min(NthWindow(s, now, k), MAX_LOOKBACK)
            && (Occurrences(s, now - w, now) != {} || w == MAX_LOOKBACK)
    ensures forall j :: i <= j < k ==>
            NthWindow(s, now, j) < MAX_LOOKBACK && Occurrences(s, now - NthWindow(s, now, j), now) == {}
    decreases MAX_LOOKBACK - NthWindow(s, now, i)
  {
    WindowsGrow(s, now, i);
    var window := NthWindow(s, now, i);
    var w := Min(window, MAX_LOOKBACK);
    WalkReachesNth(s, now - w, now, MAX_PROBES);
    if LastWithin(s, now - w, now, MAX_PROBES).Some? || w >= MAX_LOOKBACK {
      k := i;
    } else {
      k := FiringFrom(s, now, i + 1);
    }
  }

  lemma WindowsGrow(s: Schedule, now: int, i: nat)
    ensures 0 < NthWindow(s, now, i) && NthWindow(s, now, i + 1) == 4 * NthWindow(s, now, i)
  {
    PowPositive(i);
    Scale(FirstWindow(s, now), Pow4(i));
  }

  lemma {:induction false} PowPositive(i: nat)
    ensures Pow4(i) > 0
  {
    if i > 0 {
      PowPositive(i - 1);
    }
  }

  lemma Scale(a: int, b: int)
    requires a > 0 && b > 0
    ensures a * b > 0 && a * (4 * b) == 4 * (a * b)
  {
  }

  // The gap between the next two occurrences that the library finds, and the look-back if it does not
  // find two.
  ghost predicate GapAhead(s: Schedule, now: int, gap: int) {
    if s.next(now).Some? && s.next(s.next(now).value).Some?
    then gap == s.next(s.next(now).value).value - s.next(now).value
    else gap == 400 * 24 * HOUR
  }

  // The k-th window to look back over: twice the gap, at least an hour, four times wider each time.
  function LookBack(gap: int, k: nat): int {
    Max(2 * gap, HOUR) * Pow4(k)
  }

  /** What PrevRun answers, in terms of the occurrences alone: of the windows twice as long as the gap
      ahead, at least an hour, and four times wider each time, up to the look-back, it takes the first
      one in which anything fired, and answers with the last of the first 2000 occurrences in it. */
  lemma PrevRunExactly(s: Schedule, now: int, gap: int) returns (k: nat, w: int)
    requires s.Valid() && GapAhead(s, now, gap)
    ensures w == Min(LookBack(gap, k), MAX_LOOKBACK) && (Occurrences(s, now - w, now) != {} || w == MAX_LOOKBACK)
    ensures forall j :: 0 <= j < k ==>
              LookBack(gap, j) < MAX_LOOKBACK && Occurrences(s, now - LookBack(gap, j), now) == {}
    ensures Previous(s, now).None? <==> Occurrences(s, now - w, now) == {}
    ensures Previous(s, now).Some? ==>
              && Previous(s, now).value in Occurrences(s, now - w, now)
              && |Occurrences(s, now - w, Previous(s, now).value)| == Min(|Occurrences(s, now - w, now)|, 2000)
  {
    k := DecidingWindowIsFirstFiring(s, now);
    w := DecidingWindow(s, now, FirstWindow(s, now));
    forall i: nat
      ensures NthWindow(s, now, i) == LookBack(gap, i)
    {
    }
    SearchIsAWalk(s, now, FirstWindow(s, now));
    WalkReachesNth(s, now - w, now, MAX_PROBES);
  }

  // `a` and `b` are the first two occurrences after `now`, within the library's reach.
  ghost predicate FirstTwo(s: Schedule, now: int, a: int, b: int) {
    && s.occurs(a) && s.occurs(b) && now < a < b && a - now <= MAX_LOOKBACK && b - a <= MAX_LOOKBACK
    && (forall o :: now < o < a ==> !s.occurs(o)) && (forall o :: a < o < b ==> !s.occurs(o))
  }

  lemma FirstTwoAhead(s: Schedule, now: int, a: int, b: int)
    requires s.Valid() && FirstTwo(s, now, a, b)
    ensures GapAhead(s, now, b - a)
  {
    assert s.NextIsFirst(now) && s.NextIsFirst(a);
  }

  /** When the window twice as long as the gap between the next two occurrences, at least an hour, fits
      the look-back and holds at least one occurrence and at most 2000, PrevRun is the most recent
      occurrence. */
  lemma PrevRunInFirstWindow(s: Schedule, now: int, a: int, b: int, w: int)
    requires s.Valid() && FirstTwo(s, now, a, b) && w == Max(2 * (b - a), HOUR) <= MAX_LOOKBACK
    requires 1 <= |Occurrences(s, now - w, now)| <= 2000
    ensures Previous(s, now).Some? && Latest(s, now, Previous(s, now).value)
  {
    FirstTwoAhead(s, now, a, b);
    var k, v := PrevRunExactly(s, now, b - a);
    assert LookBack(b - a, 0) == w;
    assert k == 0;
    UnclippedIs(s, now, b - a);
    PrevRunIsLatestIff(s, now);
  }

  lemma UnclippedIs(s: Schedule, now: int, gap: int)
    requires s.Valid() && GapAhead(s, now, gap) && Max(2 * gap, HOUR) <= MAX_LOOKBACK
    requires 1 <= |Occurrences(s, now - Max(2 * gap, HOUR), now)| <= MAX_PROBES
    ensures Unclipped(s, now)
  {
    var w := Max(2 * gap, HOUR);
    assert FirstWindow(s, now) == w;
    WalkReachesNth(s, now - w, now, MAX_PROBES);
  }

  // --- Schedules on which PrevRun is exact ----------------------------------------------------

  ghost predicate FiresWithin(s: Schedule, t: int, span: int) {
    exists o :: t - span < o <= t && s.occurs(o)
  }

  // No gap between occurrences is shorter than `least`.
  ghost predicate Spaced(s: Schedule, least: int) {
    forall a, b :: s.occurs(a) && s.occurs(b) && a < b ==> b - a >= least
  }

  // No gap is longer than `most`, and there is always a next and a previous occurrence.
  ghost predicate KeepsFiring(s: Schedule, most: int) {
    forall t :: FiresWithin(s, t, most)
  }

  lemma {:induction false} CountAfterOccurrence(s: Schedule, lo: int, hi: int, least: int)
    requires s.Valid() && hi - lo <= MAX_LOOKBACK && lo <= hi && least > 0
    requires Spaced(s, least)
    requires s.occurs(lo)
    ensures |Occurrences(s, lo, hi)| * least <= hi - lo
    decreases hi - lo
  {
    PeelFirst(s, lo, hi);
    var first := s.next(lo);
    if first.Some? && first.value <= hi {
      CountAfterOccurrence(s, first.value, hi, least);
      Distribute(|Occurrences(s, first.value, hi)|, least);
    }
  }

  lemma Distribute(n: int, m: int)
    ensures (1 + n) * m == m + n * m
  {
  }

  lemma CountBounded(s: Schedule, lo: int, hi: int, least: int)
    requires s.Valid() && hi - lo <= MAX_LOOKBACK && lo <= hi && least > 0
    requires Spaced(s, least)
    ensures |Occurrences(s, lo, hi)| * least <= hi - lo + least
  {
    PeelFirst(s, lo, hi);
    var first := s.next(lo);
    if first.Some? && first.value <= hi {
      CountAfterOccurrence(s, first.value, hi, least);
      Distribute(|Occurrences(s, first.value, hi)|, least);
    }
  }

  lemma CadenceBounded(s: Schedule, now: int, most: int)
    requires s.Valid() && 0 < most <= MAX_LOOKBACK
    requires KeepsFiring(s, most)
    ensures Cadence(s, now) <= most
  {
    assert FiresWithin(s, now + MAX_LOOKBACK, most);
    assert s.NextIsFirst(now);
    var first := s.next(now);
    assert FiresWithin(s, first.value + MAX_LOOKBACK, most);
    assert s.NextIsFirst(first.value);
    var second := s.next(first.value);
    assert FiresWithin(s, second.value - 1, most);
  }

  lemma FirstWindowBounded(s: Schedule, now: int, most: int)
    requires s.Valid() && 0 < most <= MAX_LOOKBACK && KeepsFiring(s, most)
    ensures Max(FirstWindow(s, now), 4 * most) <= Max(HOUR, 4 * most)
    ensures FirstWindow(s, now) > 0
  {
    CadenceBounded(s, now, most);
  }

  lemma {:induction false} DecidingWindowBounded(s: Schedule, now: int, window: int, most: int)
    requires s.Valid() && window > 0 && 0 < most <= MAX_LOOKBACK
    requires FiresWithin(s, now, most)
    ensures DecidingWindow(s, now, window) <= Max(window, 4 * most)
    decreases MAX_LOOKBACK - window
  {
    var w := Min(window, MAX_LOOKBACK);
    if LastWithin(s, now - w, now, MAX_PROBES).None? && w < MAX_LOOKBACK {
      WalkReachesNth(s, now - w, now, MAX_PROBES);
      var o :| now - most < o <= now && s.occurs(o);
      assert o !in Occurrences(s, now - w, now);
      DecidingWindowBounded(s, now, 4 * w, most);
    }
  }

  lemma CountWithin(count: int, least: int, cap: int)
    requires least > 0 && count * least <= (cap - 1) * least + least
    ensures count <= cap
  {
    if count > cap {
      Larger(count, cap, least);
    }
  }

  lemma Larger(a: int, b: int, m: int)
    requires m > 0 && a > b
    ensures a * m > (b - 1) * m + m
  {
    assert a * m == (b - 1) * m + m + (a - b) * m;
  }

  lemma LatestWhenUnclipped(s: Schedule, now: int, most: int)
    requires s.Valid() && most <= MAX_LOOKBACK && FiresWithin(s, now, most) && Unclipped(s, now)
    ensures Previous(s, now).Some? && Latest(s, now, Previous(s, now).value)
  {
    FoundWhenFires(s, now, most);
    PrevRunIsLatestIff(s, now);
  }

  lemma FoundWhenFires(s: Schedule, now: int, most: int)
    requires s.Valid() && most <= MAX_LOOKBACK && FiresWithin(s, now, most)
    ensures Previous(s, now).Some?
  {
    var o :| now - most < o <= now && s.occurs(o);
    assert o in Occurrences(s, now - MAX_LOOKBACK, now);
    PrevRunFinds(s, now);
  }

  lemma ModerateWindowUnclipped(s: Schedule, now: int, window: int, least: int, most: int)
    requires s.Valid() && Spaced(s, least) && FiresWithin(s, now, most)
    requires 0 < least && 0 < most <= MAX_LOOKBACK && 0 < window
    requires Max(window, 4 * most) <= (MAX_PROBES - 1) * least
    ensures |Occurrences(s, now - DecidingWindow(s, now, window), now)| <= MAX_PROBES
  {
    DecidingWindowBounded(s, now, window, most);
    SearchIsAWalk(s, now, window);
    var w := DecidingWindow(s, now, window);
    CountBounded(s, now - w, now, least);
    CountWithin(|Occurrences(s, now - w, now)|, least, MAX_PROBES);
  }

  /** PrevRun is exact at every instant for any schedule whose widest gap, four times over, takes
      fewer probes than the cap. */
  lemma ModerateGapsUnclipped(s: Schedule, now: int, least: int, most: int)
    requires s.Valid() && Spaced(s, least) && KeepsFiring(s, most)
    requires 0 < least && 0 < most <= MAX_LOOKBACK
    requires Max(HOUR, 4 * most) <= (MAX_PROBES - 1) * least
    ensures Unclipped(s, now) && Previous(s, now).Some? && Latest(s, now, Previous(s, now).value)
  {
    assert FiresWithin(s, now, most);
    FirstWindowBounded(s, now, most);
    ModerateWindowUnclipped(s, now, FirstWindow(s, now), least, most);
    LatestWhenUnclipped(s, now, most);
  }

  /** For a strictly periodic schedule of a minute or more, PrevRun is the one occurrence of the
      period that ends now. */
  lemma PeriodicPrevRun(s: Schedule, now: int, period: int)
    requires s.Valid() && Spaced(s, period) && KeepsFiring(s, period) && MINUTE <= period <= MAX_LOOKBACK
    ensures Previous(s, now).Some?
    ensures forall o :: now - period < o <= now && s.occurs(o) <==> Some(o) == Previous(s, now)
  {
    ModerateGapsUnclipped(s, now, period, period);
    OneInPeriod(s, now, Previous(s, now).value, period);
  }

  lemma OneInPeriod(s: Schedule, now: int, p: int, period: int)
    requires Spaced(s, period) && FiresWithin(s, now, period) && Latest(s, now, p)
    ensures forall o :: now - period < o <= now && s.occurs(o) <==> o == p
  {
  }

  // --- NextRuns -------------------------------------------------------------------------------

  // One step of NextRuns: when the library gives up, its zero time is taken as the next instant.
  function Advance(s: Schedule, t: int): int {
    match s.next(t)
    case None => ZERO_TIME
    case Some(n) => n
  }

  // The library found a successor of `after` and of every one of `times`.
  ghost predicate GoesOn(s: Schedule, after: int, times: seq<int>) {
    s.next(after).Some? && forall t :: t in times ==> s.next(t).Some?
  }

  ghost predicate IsNth(s: Schedule, after: int, t: int, n: nat) {
    after < t && s.occurs(t) && |Occurrences(s, after, t)| == n
  }

  function StartOf(after: int, times: seq<int>): int {
    if times == [] then after else times[|times| - 1]
  }

  // Each instant is one step on from its predecessor and, as long as the library has not given up
  // on an earlier one, the i-th of them is the (i+1)-th occurrence after `after`.
  ghost predicate Upcoming(s: Schedule, after: int, times: seq<int>) {
    forall i :: 0 <= i < |times| ==>
      && times[i] == Advance(s, StartOf(after, times[..i]))
      && (GoesOn(s, after, times[..i]) ==> IsNth(s, after, times[i], i + 1))
  }

  lemma UpcomingExtends(s: Schedule, after: int, times: seq<int>)
    requires s.Valid() && Upcoming(s, after, times)
    ensures Upcoming(s, after, times + [Advance(s, StartOf(after, times))])
  {
    var longer := times + [Advance(s, StartOf(after, times))];
    assert longer[..|times|] == times;
    forall i | 0 <= i < |times|
      ensures longer[..i] == times[..i]
    {
    }
    if GoesOn(s, after, times) {
      NextIsNth(s, after, times);
    }
  }

  lemma NextIsNth(s: Schedule, after: int, times: seq<int>)
    requires s.Valid() && Upcoming(s, after, times) && GoesOn(s, after, times)
    ensures IsNth(s, after, Advance(s, StartOf(after, times)), |times| + 1)
  {
    var t := StartOf(after, times);
    var n := s.next(t);
    if times != [] {
      var last := |times| - 1;
      assert t in times;
      assert GoesOn(s, after, times[..last]);
      assert IsNth(s, after, times[last], last + 1);
    } else {
      assert Occurrences(s, after, t) == {};
    }
    assert s.NextIsFirst(t);
    OneMore(s, after, t, n.value);
  }

  lemma OneMore(s: Schedule, after: int, t: int, n: int)
    requires s.Valid() && s.next(t) == Some(n) && after <= t && (t == after || s.occurs(t))
    ensures |Occurrences(s, after, n)| == |Occurrences(s, after, t)| + 1
  {
    assert s.NextIsFirst(t);
    assert Occurrences(s, after, n) == Occurrences(s, after, t) + {n};
  }

  /** NextRuns on the outcome of parsing. */
  method NextRuns(parsed: Option<Schedule>, after: int, n: nat) returns (r: Option<seq<int>>)
    requires parsed.Some? ==> parsed.value.Valid()
    ensures r.None? <==> parsed.None?
    ensures r.Some? ==> |r.value| == n && Upcoming(parsed.value, after, r.value)
  {
    if parsed.None? {
      return None;
    }
    var s := parsed.value;
    var times := seq(n, _ => ZERO_TIME);
    var t := after;
    for i := 0 to n
      invariant |times| == n && t == StartOf(after, times[..i])
      invariant Upcoming(s, after, times[..i])
    {
      UpcomingExtends(s, after, times[..i]);
      t := Advance(s, t);
      ghost var was := times;
      times := times[i := t];
      assert times[..i + 1] == was[..i] + [t];
    }
    assert times[..n] == times;
    return Some(times);
  }

  /** Where an instant has no successor for the library, the next entry is Go's zero time; one that has
      a successor is followed by the first occurrence after it. */
  lemma AfterGivingUp(s: Schedule, after: int, times: seq<int>, i: nat)
    requires s.Valid() && Upcoming(s, after, times) && i < |times|
    ensures var t := if i == 0 then after else times[i - 1];
            if s.next(t).None? then times[i] == ZERO_TIME
            else t < times[i] && s.occurs(times[i]) && forall o :: t < o < times[i] ==> !s.occurs(o)
  {
    var t := if i == 0 then after else times[i - 1];
    assert StartOf(after, times[..i]) == t;
    assert s.NextIsFirst(t);
  }

  // --- IsMissed -------------------------------------------------------------------------------

  datatype LastRun = LastRun(startedAt: int, running: bool)

  function IsMissed(parsed: Option<Schedule>, suspended: bool, last: Option<LastRun>, now: int): bool {
    if suspended || parsed.None? then false
    else
      var s := parsed.value;
      match Previous(s, now)
      case None => false
      case Some(prev) =>
        if now - prev <= GRACE then
          if last.None? then false
          else
            match Previous(s, prev - 1)
            case None => false
            case Some(earlier) => Behind(last, earlier)
        else
          Behind(last, prev)
  }

  predicate Behind(last: Option<LastRun>, occurrence: int) {
    last.None? || (!last.value.running && last.value.startedAt < occurrence)
  }

  // The instant up to which occurrences are judged: just before the one PrevRun found, while that is
  // within the grace period, and now otherwise.
  function JudgedAt(s: Schedule, now: int): int {
    var p := Previous(s, now);
    if p.Some? && now - p.value <= GRACE then p.value - 1 else now
  }

  // PrevRun answers now, and as of the instant judged.
  predicate Resolves(s: Schedule, now: int) {
    Previous(s, now).Some? && Previous(s, JudgedAt(s, now)).Some?
  }

  // The start of the window that decides a search.
  function WindowStart(s: Schedule, at: int): int {
    at - DecidingWindow(s, at, FirstWindow(s, at))
  }

  /** What PrevRun finds is after a given instant exactly when something fired since and fewer
      occurrences of the deciding window than the probe cap are up to it. */
  lemma AnswerIsAfterIff(s: Schedule, at: int, t: int)
    requires s.Valid() && Previous(s, at).Some?
    ensures t < Previous(s, at).value <==>
            Occurrences(s, t, at) != {} && |Occurrences(s, WindowStart(s, at), t)| < MAX_PROBES
  {
    SearchIsAWalk(s, at, FirstWindow(s, at));
    var from, r := WindowStart(s, at), Previous(s, at).value;
    WalkReachesNth(s, from, at, MAX_PROBES);
    if t < r {
      assert r in Occurrences(s, t, at);
      SubsetSmaller(Occurrences(s, from, t) + {r}, Occurrences(s, from, r));
    } else {
      SubsetSmaller(Occurrences(s, from, r), Occurrences(s, from, t));
      SubsetSmaller(Occurrences(s, from, r), Occurrences(s, from, at));
      SinceAnswer(s, from, r, t, at);
    }
  }

  lemma SinceAnswer(s: Schedule, from: int, r: int, t: int, at: int)
    requires from < r <= t
    ensures Occurrences(s, from, r) == Occurrences(s, from, at) ==> Occurrences(s, t, at) == {}
  {
    forall o | o in Occurrences(s, t, at)
      ensures o in Occurrences(s, from, at) && o !in Occurrences(s, from, r)
    {
    }
  }

  /** The verdict with a last run, for every schedule and every instant, the probe cap included: missed
      means not suspended, nothing running, a schedule that resolves, an occurrence since the last run
      up to the instant judged, and fewer occurrences than the cap between the start of the deciding
      window and the last run. */
  lemma MissedIff(s: Schedule, suspended: bool, last: LastRun, now: int)
    requires s.Valid()
    ensures IsMissed(Some(s), suspended, Some(last), now) <==>
            && !suspended && !last.running && Resolves(s, now)
            && Occurrences(s, last.startedAt, JudgedAt(s, now)) != {}
            && |Occurrences(s, WindowStart(s, JudgedAt(s, now)), last.startedAt)| < MAX_PROBES
  {
    if Resolves(s, now) {
      AnswerIsAfterIff(s, JudgedAt(s, now), last.startedAt);
    }
  }

  /** A schedule resolves when it fired within the look-back of both instants. */
  lemma ResolvesIff(s: Schedule, now: int)
    requires s.Valid()
    ensures Resolves(s, now) <==>
            && Occurrences(s, now - MAX_LOOKBACK, now) != {}
            && Occurrences(s, JudgedAt(s, now) - MAX_LOOKBACK, JudgedAt(s, now)) != {}
  {
    PrevRunFinds(s, now);
    PrevRunFinds(s, JudgedAt(s, now));
  }

  // The probe cap bites on neither of the searches that IsMissed may run.
  ghost predicate UnclippedTwice(s: Schedule, now: int) {
    Unclipped(s, now) && (Previous(s, now).Some? ==> Unclipped(s, Previous(s, now).value - 1))
  }

  ghost predicate LatestInReach(s: Schedule, now: int, p: int) {
    now - MAX_LOOKBACK < p && Latest(s, now, p)
  }

  // `r` is the latest occurrence within the look-back, if there is one.
  ghost predicate Answers(s: Schedule, now: int, r: Option<int>) {
    if r.Some? then LatestInReach(s, now, r.value) else forall p :: !LatestInReach(s, now, p)
  }

  lemma PreviousAnswers(s: Schedule, now: int)
    requires s.Valid() && Unclipped(s, now)
    ensures Answers(s, now, Previous(s, now))
  {
    PrevRunFinds(s, now);
    if Previous(s, now).Some? {
      PrevRunIsLatestIff(s, now);
    } else {
      NothingInReach(s, now);
    }
  }

  lemma NothingInReach(s: Schedule, now: int)
    requires Occurrences(s, now - MAX_LOOKBACK, now) == {}
    ensures Answers(s, now, None)
  {
    assert forall p :: LatestInReach(s, now, p) ==> p in Occurrences(s, now - MAX_LOOKBACK, now);
  }

  // There is an occurrence to judge within the look-back: the latest one, or the one before it
  // while the latest is inside the grace period.
  ghost predicate Resolvable(s: Schedule, now: int) {
    exists p :: JudgeableAt(s, now, p)
  }

  ghost predicate JudgeableAt(s: Schedule, now: int, p: int) {
    LatestInReach(s, now, p) && (now - p <= GRACE ==> exists e :: LatestBefore(s, p, e))
  }

  ghost predicate LatestBefore(s: Schedule, p: int, e: int) {
    LatestInReach(s, p - 1, e)
  }

  // An occurrence that the last run does not account for, and that is past excusing: older than
  // the grace period, or already followed by another one.
  ghost predicate Uncovered(s: Schedule, startedAt: int, now: int, o: int) {
    s.occurs(o) && startedAt < o <= now && (now - o > GRACE || FiredSince(s, o, now))
  }

  ghost predicate FiredSince(s: Schedule, o: int, now: int) {
    exists later :: o < later <= now && s.occurs(later)
  }

  /** Where the probe cap does not bite, missed means that some occurrence after the last run is past
      excusing. */
  lemma MissedIffUncovered(s: Schedule, suspended: bool, last: LastRun, now: int)
    requires s.Valid() && UnclippedTwice(s, now)
    ensures IsMissed(Some(s), suspended, Some(last), now) <==>
            !suspended && !last.running && Resolvable(s, now) && exists o :: Uncovered(s, last.startedAt, now, o)
  {
    MissedIff(s, suspended, last, now);
    ResolvableIff(s, now);
    if Resolves(s, now) {
      PreviousAnswers(s, now);
      UncoveredIff(s, last.startedAt, now);
      UnclippedAtJudged(s, now);
      if Occurrences(s, last.startedAt, JudgedAt(s, now)) != {} {
        FewUpTo(s, JudgedAt(s, now), last.startedAt);
      }
    }
  }

  lemma UnclippedAtJudged(s: Schedule, now: int)
    requires UnclippedTwice(s, now)
    ensures Unclipped(s, JudgedAt(s, now))
  {
  }

  // With something still to come, fewer than all of an unclipped window are up to `t`.
  lemma FewUpTo(s: Schedule, at: int, t: int)
    requires Unclipped(s, at) && Occurrences(s, t, at) != {}
    ensures |Occurrences(s, WindowStart(s, at), t)| < MAX_PROBES
  {
    var from := WindowStart(s, at);
    var o :| o in Occurrences(s, t, at);
    if from < t {
      SubsetSmaller(Occurrences(s, from, t) + {o}, Occurrences(s, from, at));
    } else {
      assert Occurrences(s, from, t) == {};
    }
  }

  lemma UncoveredIff(s: Schedule, t: int, now: int)
    requires Previous(s, now).Some? && Latest(s, now, Previous(s, now).value)
    ensures Occurrences(s, t, JudgedAt(s, now)) != {} <==> exists o :: Uncovered(s, t, now, o)
  {
    var p := Previous(s, now).value;
    if Occurrences(s, t, JudgedAt(s, now)) != {} {
      var o :| o in Occurrences(s, t, JudgedAt(s, now));
      if now - p <= GRACE {
        assert FiredSince(s, o, now);
        assert Uncovered(s, t, now, o);
      } else {
        assert Uncovered(s, t, now, p);
      }
    }
    forall o | Uncovered(s, t, now, o)
      ensures o in Occurrences(s, t, JudgedAt(s, now))
    {
    }
  }

  lemma ResolvableIff(s: Schedule, now: int)
    requires s.Valid() && UnclippedTwice(s, now)
    ensures Resolvable(s, now) <==> Resolves(s, now)
  {
    PreviousAnswers(s, now);
    if Previous(s, now).Some? {
      var p := Previous(s, now).value;
      assert Previous(s, now) == Some(p);
      PreviousAnswers(s, p - 1);
      OnlyLatestJudged(s, now, p);
      if now - p <= GRACE {
        EarlierIff(s, p, Previous(s, p - 1));
      } else {
        FoundAgain(s, now);
      }
    }
  }

  lemma FoundAgain(s: Schedule, now: int)
    requires Previous(s, now).Some? && now - Previous(s, now).value > GRACE
    ensures Resolves(s, now)
  {
  }

  lemma OnlyLatestJudged(s: Schedule, now: int, p: int)
    requires LatestInReach(s, now, p)
    ensures Resolvable(s, now) <==> JudgeableAt(s, now, p)
  {
    forall q | JudgeableAt(s, now, q)
      ensures q == p
    {
      LatestUnique(s, now, p, q);
    }
  }

  lemma EarlierIff(s: Schedule, p: int, earlier: Option<int>)
    requires Answers(s, p - 1, earlier)
    ensures earlier.Some? <==> exists e :: LatestBefore(s, p, e)
  {
    if earlier.Some? {
      assert LatestBefore(s, p, earlier.value);
    } else {
      forall e ensures !LatestBefore(s, p, e) {}
    }
  }

  lemma LatestUnique(s: Schedule, now: int, p: int, q: int)
    requires Latest(s, now, p) && Latest(s, now, q)
    ensures p == q
  {
  }

  lemma JudgeableWith(s: Schedule, now: int, p: int, e: int)
    requires LatestInReach(s, now, p) && LatestInReach(s, p - 1, e)
    ensures Resolvable(s, now)
  {
    assert LatestBefore(s, p, e);
    assert JudgeableAt(s, now, p);
  }

  /** With no run on record, for every schedule and every instant: missed means that the schedule
      fired within the look-back, and either not within the grace period or as often as the probe cap
      before it. */
  lemma NeverRanMissedIff(s: Schedule, suspended: bool, now: int)
    requires s.Valid()
    ensures IsMissed(Some(s), suspended, None, now) <==>
            && !suspended && Occurrences(s, now - MAX_LOOKBACK, now) != {}
            && (Occurrences(s, now - GRACE - 1, now) == {} ||
               |Occurrences(s, WindowStart(s, now), now - GRACE - 1)| >= MAX_PROBES)
  {
    PrevRunFinds(s, now);
    if Previous(s, now).Some? {
      AnswerIsAfterIff(s, now, now - GRACE - 1);
    }
  }

  lemma SparseAnswerIsOld(s: Schedule, now: int)
    requires s.Valid() && Resolves(s, now) && Spaced(s, GRACE + 1)
    ensures now - GRACE - 1 <= JudgedAt(s, now) && Previous(s, JudgedAt(s, now)).value <= now - GRACE - 1
  {
    PrevRunFinds(s, now);
    PrevRunFinds(s, JudgedAt(s, now));
  }

  /** For a schedule sparser than the grace period, at every instant, the verdict is the plain one up to
      the cap: some occurrence older than the grace period came after the last run. */
  lemma SparseMissedIff(s: Schedule, last: LastRun, now: int)
    requires s.Valid() && Spaced(s, GRACE + 1)
    ensures IsMissed(Some(s), false, Some(last), now) <==>
            && !last.running && Resolves(s, now) && Occurrences(s, last.startedAt, now - GRACE - 1) != {}
            && |Occurrences(s, WindowStart(s, JudgedAt(s, now)), last.startedAt)| < MAX_PROBES
  {
    MissedIff(s, false, last, now);
    if Resolves(s, now) {
      var at := JudgedAt(s, now);
      SparseAnswerIsOld(s, now);
      AnswerIsAfterIff(s, at, last.startedAt);
      PrevRunFinds(s, at);
      if last.startedAt < Previous(s, at).value {
        assert Previous(s, at).value in Occurrences(s, last.startedAt, now - GRACE - 1);
      }
      assert Occurrences(s, last.startedAt, now - GRACE - 1) <= Occurrences(s, last.startedAt, at);
    }
  }

  // With two occurrences since the last run, one of them is past excusing.
  lemma DeadJobReported(s: Schedule, last: LastRun, first: int, second: int, now: int)
    requires s.Valid() && UnclippedTwice(s, now) && Resolvable(s, now)
    requires s.occurs(first) && s.occurs(second) && last.startedAt < first < second <= now && !last.running
    ensures IsMissed(Some(s), false, Some(last), now)
  {
    assert FiredSince(s, first, now);
    assert Uncovered(s, last.startedAt, now, first);
    MissedIffUncovered(s, false, last, now);
  }

  // Every look-back from an instant since `first` finds an occurrence.
  ghost predicate NoLongGap(s: Schedule, first: int, now: int) {
    forall t :: first <= t <= now ==> FiresWithin(s, t, MAX_LOOKBACK)
  }

  lemma GapsResolve(s: Schedule, first: int, second: int, now: int)
    requires s.Valid() && UnclippedTwice(s, now) && NoLongGap(s, first, now) && s.occurs(second) &&
             first < second <= now
    ensures Resolvable(s, now)
  {
    assert FiresWithin(s, now, MAX_LOOKBACK);
    LatestWhenUnclipped(s, now, MAX_LOOKBACK);
    var p := Previous(s, now).value;
    PreviousAnswers(s, now);
    assert FiresWithin(s, p - 1, MAX_LOOKBACK);
    LatestWhenUnclipped(s, p - 1, MAX_LOOKBACK);
    PreviousAnswers(s, p - 1);
    JudgeableWith(s, now, p, Previous(s, p - 1).value);
  }

  /** A job that stopped, up to an occurrence it did not serve: it is reported if and only if fewer
      occurrences than the cap lie between the start of the deciding window and its last run. */
  lemma DeadJobReportedIff(s: Schedule, last: LastRun, first: int, now: int)
    requires s.Valid() && NoLongGap(s, first, now)
    requires s.occurs(first) && last.startedAt < first <= JudgedAt(s, now) && !last.running
    ensures IsMissed(Some(s), false, Some(last), now) <==>
            |Occurrences(s, WindowStart(s, JudgedAt(s, now)), last.startedAt)| < MAX_PROBES
  {
    var at := JudgedAt(s, now);
    JudgedNotLater(s, now);
    assert FiresWithin(s, at, MAX_LOOKBACK) && FiresWithin(s, now, MAX_LOOKBACK);
    FoundWhenFires(s, at, MAX_LOOKBACK);
    FoundWhenFires(s, now, MAX_LOOKBACK);
    assert first in Occurrences(s, last.startedAt, at);
    MissedIff(s, false, last, now);
  }

  lemma JudgedNotLater(s: Schedule, now: int)
    requires s.Valid()
    ensures JudgedAt(s, now) <= now
  {
    PrevRunFinds(s, now);
  }

  /** A job that stopped stays reported: at every instant from the second occurrence after its last
      run on, whatever the phase within the grace period, as long as no gap exceeds the look-back. */
  lemma DeadJobStaysReported(s: Schedule, last: LastRun, first: int, second: int, now: int)
    requires s.Valid() && UnclippedTwice(s, now) && NoLongGap(s, first, now)
    requires s.occurs(first) && s.occurs(second) && last.startedAt < first < second <= now && !last.running
    ensures IsMissed(Some(s), false, Some(last), now)
  {
    GapsResolve(s, first, second, now);
    DeadJobReported(s, last, first, second, now);
  }

  // A missed verdict always has an occurrence to show for it.
  lemma MissedHasUncovered(s: Schedule, last: LastRun, now: int) returns (o: int)
    requires s.Valid() && IsMissed(Some(s), false, Some(last), now)
    ensures Uncovered(s, last.startedAt, now, o)
  {
    PrevRunFinds(s, now);
    PrevRunFinds(s, JudgedAt(s, now));
    o := Previous(s, JudgedAt(s, now)).value;
    if now - Previous(s, now).value <= GRACE {
      assert FiredSince(s, o, now);
    }
  }

  /** A missed verdict is not taken back without a new run, where the probe cap does not bite. */
  lemma MissedIsStable(s: Schedule, last: LastRun, now: int, later: int)
    requires s.Valid() && UnclippedTwice(s, later) && now <= later
    requires Resolvable(s, later) && IsMissed(Some(s), false, Some(last), now)
    ensures IsMissed(Some(s), false, Some(last), later)
  {
    var o := MissedHasUncovered(s, last, now);
    if FiredSince(s, o, now) {
      assert FiredSince(s, o, later);
    }
    assert Uncovered(s, last.startedAt, later, o);
    MissedIffUncovered(s, false, last, later);
  }

  /** Both hypotheses above hold at every instant for every schedule with moderate gaps. */
  lemma ModerateGapsJudgeable(s: Schedule, now: int, least: int, most: int)
    requires s.Valid() && Spaced(s, least) && KeepsFiring(s, most)
    requires 0 < least && 0 < most <= MAX_LOOKBACK
    requires Max(HOUR, 4 * most) <= (MAX_PROBES - 1) * least
    ensures UnclippedTwice(s, now) && Resolvable(s, now)
  {
    ModerateGapsUnclipped(s, now, least, most);
    PreviousAnswers(s, now);
    var p := Previous(s, now).value;
    ModerateGapsUnclipped(s, p - 1, least, most);
    PreviousAnswers(s, p - 1);
    JudgeableWith(s, now, p, Previous(s, p - 1).value);
  }

  // --- Where the hypotheses bite --------------------------------------------------------------

  // "* * * * *" in a zone without offset.
  function EveryMinute(): Schedule {
    Schedule(t => t % MINUTE == 0, t => Some((t / MINUTE + 1) * MINUTE))
  }

  lemma EveryMinuteValid()
    ensures EveryMinute().Valid()
  {
  }

  lemma OnTheMinute(s: Schedule)
    requires forall t :: s.occurs(t) <==> t % MINUTE == 0
    ensures Spaced(s, MINUTE) && KeepsFiring(s, MINUTE)
  {
    forall t
      ensures FiresWithin(s, t, MINUTE)
    {
      assert s.occurs(t / MINUTE * MINUTE);
    }
  }

  /** For a schedule denser than the grace period the plain verdict fails: here every occurrence
      since the last run is inside the grace period, and the run is reported missed all the same.
      Any schedule that fires every minute will do. */
  lemma DenseMissedInsideGrace(s: Schedule)
    requires s.Valid() && forall t :: s.occurs(t) <==> t % MINUTE == 0
    ensures var last, now := LastRun(9 * MINUTE - 1, false), 10 * MINUTE + 10;
            IsMissed(Some(s), false, Some(last), now) && Occurrences(s, last.startedAt, now - GRACE - 1) == {}
  {
    OnTheMinute(s);
    assert s.occurs(9 * MINUTE) && s.occurs(10 * MINUTE);
    MinutelyJudgeable(s, 10 * MINUTE + 10);
    DeadJobReported(s, LastRun(9 * MINUTE - 1, false), 9 * MINUTE, 10 * MINUTE, 10 * MINUTE + 10);
  }

  /** "* * * * *" is one. */
  lemma EveryMinuteMissedInsideGrace()
    ensures var last, now := LastRun(9 * MINUTE - 1, false), 10 * MINUTE + 10;
            && IsMissed(Some(EveryMinute()), false, Some(last), now)
            && Occurrences(EveryMinute(), last.startedAt, now - GRACE - 1) == {}
  {
    EveryMinuteValid();
    DenseMissedInsideGrace(EveryMinute());
  }

  lemma MinutelyJudgeable(s: Schedule, now: int)
    requires s.Valid() && Spaced(s, MINUTE) && KeepsFiring(s, MINUTE)
    ensures UnclippedTwice(s, now) && Resolvable(s, now)
  {
    ModerateGapsJudgeable(s, now, MINUTE, MINUTE);
  }

  // Every minute for two days, then silence until two more ticks at the end of the month: the
  // shape of "* * 1-2 * *".
  function BusyTwoDays(): Schedule {
    Schedule(
      t => t % MINUTE == 0 && (0 <= t <= 2879 * MINUTE || 43200 * MINUTE <= t <= 43201 * MINUTE),
      t => if t < -MAX_LOOKBACK then None
           else if t < 0 then Some(0)
           else if t < 2879 * MINUTE then Some((t / MINUTE + 1) * MINUTE)
           else if t < 43200 * MINUTE then Some(43200 * MINUTE)
           else if t < 43201 * MINUTE then Some(43201 * MINUTE)
           else None)
  }

  lemma BusyTwoDaysValid()
    ensures BusyTwoDays().Valid()
  {
    var s := BusyTwoDays();
    forall t
      ensures s.NextIsFirst(t)
    {
    }
  }

  lemma {:induction false} BusyCount(lo: int, k: nat)
    requires lo < 0 && k <= 2879
    ensures |Occurrences(BusyTwoDays(), lo, k * MINUTE)| == k + 1
  {
    var s := BusyTwoDays();
    if k == 0 {
      assert Occurrences(s, lo, 0) == {0};
    } else {
      BusyCount(lo, k - 1);
      assert Occurrences(s, lo, k * MINUTE) == Occurrences(s, lo, (k - 1) * MINUTE) + {k * MINUTE};
    }
  }

  lemma SkipEmpty(s: Schedule, now: int, window: int)
    requires s.Valid() && 0 < window < MAX_LOOKBACK && Occurrences(s, now - window, now) == {}
    ensures DecidingWindow(s, now, window) == DecidingWindow(s, now, 4 * window)
  {
    WalkReachesNth(s, now - window, now, MAX_PROBES);
  }

  lemma BusyDecidingWindow(now: int)
    requires now == 21600 * MINUTE
    ensures DecidingWindow(BusyTwoDays(), now, FirstWindow(BusyTwoDays(), now)) >= 61440 * MINUTE
  {
    var s := BusyTwoDays();
    BusyTwoDaysValid();
    assert FirstWindow(s, now) == HOUR;
    SkipEmpty(s, now, HOUR);
    SkipEmpty(s, now, 4 * HOUR);
    SkipEmpty(s, now, 16 * HOUR);
    SkipEmpty(s, now, 64 * HOUR);
    SkipEmpty(s, now, 256 * HOUR);
    WindowNeverShrinks(s, now, 1024 * HOUR);
  }

  lemma {:induction false} WindowNeverShrinks(s: Schedule, now: int, window: int)
    requires window > 0
    ensures DecidingWindow(s, now, window) >= Min(window, MAX_LOOKBACK)
    decreases MAX_LOOKBACK - window
  {
    var w := Min(window, MAX_LOOKBACK);
    if LastWithin(s, now - w, now, MAX_PROBES).None? && w < MAX_LOOKBACK {
      WindowNeverShrinks(s, now, 4 * w);
    }
  }

  lemma ClippedBelow(s: Schedule, now: int, from: int, cut: int)
    requires s.Valid() && now - MAX_LOOKBACK <= from < cut <= now
    requires |Occurrences(s, from, cut)| > MAX_PROBES
    ensures LastWithin(s, from, now, MAX_PROBES).Some? && LastWithin(s, from, now, MAX_PROBES).value < cut
  {
    WalkReachesNth(s, from, now, MAX_PROBES);
    SubsetSmaller(Occurrences(s, from, cut), Occurrences(s, from, now));
    var p := LastWithin(s, from, now, MAX_PROBES).value;
    if p >= cut {
      SubsetSmaller(Occurrences(s, from, cut), Occurrences(s, from, p));
    }
  }

  lemma OldAnswerClears(s: Schedule, now: int, last: LastRun)
    requires Previous(s, now).Some? && now - Previous(s, now).value > GRACE
    requires Previous(s, now).value <= last.startedAt
    ensures !IsMissed(Some(s), false, Some(last), now)
  {
  }

  /** The probe cap can bite: asked mid-month, PrevRun answers with an instant hours before the
      last occurrence. */
  lemma ClippedSearchFallsShort()
    ensures var s, now := BusyTwoDays(), 21600 * MINUTE;
            && s.Valid() && Latest(s, now, 2879 * MINUTE)
            && Previous(s, now).Some? && Previous(s, now).value < 2000 * MINUTE
  {
    var s, now := BusyTwoDays(), 21600 * MINUTE;
    BusyTwoDaysValid();
    BusyDecidingWindow(now);
    var w := DecidingWindow(s, now, FirstWindow(s, now));
    SearchIsAWalk(s, now, FirstWindow(s, now));
    BusyCount(now - w, 2000);
    ClippedBelow(s, now, now - w, 2000 * MINUTE);
  }

  /** ... and then a job silent for hours past the answer is not reported. */
  lemma ClippedVerdictMisleads()
    ensures var s, now, last := BusyTwoDays(), 21600 * MINUTE, LastRun(2500 * MINUTE, false);
            Uncovered(s, last.startedAt, now, 2879 * MINUTE) && !IsMissed(Some(s), false, Some(last), now)
  {
    ClippedSearchFallsShort();
    OldAnswerClears(BusyTwoDays(), 21600 * MINUTE, LastRun(2500 * MINUTE, false));
  }
}
