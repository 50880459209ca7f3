/** Paging through the run history of one CronJob, end to end: the SQL page query over text-ordered
    start times, the cursor it hands out, and the cursor parsed back for the next page. */
module Paging {
  import opened Common
  import opened Timestamps
  import opened Cursor

  // A row of job_runs.  `monotonic` is the reading that the driver prints after the zone when the
  // time came from time.Now.
  datatype Run = Run(id: string, started: Civil, monotonic: string)

  // Rows are written in the zone of the process.
  function Text(z: Zone, r: Run): string {
    StoredText(r.started, z, r.monotonic)
  }

  // The time a cursor is parsed to: a wall clock in a zone.
  datatype Bound = Bound(wall: Civil, zone: Zone)

  const UTC := Zone(0, "UTC")

  // "Z" names UTC.  A numeric offset takes the process's zone when that has the same one, and a zone
  // without a name, printed as its offset, otherwise.
  function ZoneOf(z: Zone, raw: string, offset: int): Zone {
    if raw != "" && raw[|raw| - 1] == 'Z' then UTC
    else if offset == z.offset then z
    else Zone(offset, OffsetName(offset))
  }

  function OffsetName(offset: int): string {
    [Sign(offset)] + Digits(Minutes(offset) / 60, 2) + Digits(Minutes(offset) % 60, 2)
  }

  // What a cursor means to a process in the zone `z`; nothing lists from the newest run.
  function Resolve(z: Zone, raw: string): Option<Bound> {
    match ParseRunCursor(raw)
    case None => None
    case Some(t) => Some(Bound(t.wall, ZoneOf(z, raw, t.offset)))
  }

  function BeforeText(b: Bound): string {
    StoredText(b.wall, b.zone, "")
  }

  function Eligible(z: Zone, rows: set<Run>, before: Option<Bound>): set<Run> {
    if before.None? then rows else set r | r in rows && TextLess(Text(z, r), BeforeText(before.value))
  }

  ghost predicate Distinct(page: seq<Run>) {
    forall i, j :: 0 <= i < j < |page| ==> page[i] != page[j]
  }

  function Min(a: nat, b: nat): nat { if a < b then a else b }

  // A page of the first eligible rows in the order `newer`.  Rows that neither precedes come in no
  // particular order.
  ghost predicate FirstRows(newer: (Run, Run) -> bool, eligible: set<Run>, limit: nat, page: seq<Run>) {
    && Distinct(page) && (forall r :: r in page ==> r in eligible)
    && |page| == Min(limit, |eligible|)
    && (forall i, j :: 0 <= i < j < |page| ==> !newer(page[j], page[i]))
    && (forall p, r :: p in page && r in eligible && r !in page ==> !newer(r, p))
  }

  function NewerText(z: Zone): (Run, Run) -> bool {
    (p, r) => TextLess(Text(z, r), Text(z, p))
  }

  /** What the query promises: a page of the newest eligible rows, newest first, by text. */
  ghost predicate IsPage(z: Zone, rows: set<Run>, before: Option<Bound>, limit: nat, page: seq<Run>) {
    FirstRows(NewerText(z), Eligible(z, rows, before), limit, page)
  }

  // An order in which "not before" can be chained, so that every set has a first row.
  ghost predicate Ranks(newer: (Run, Run) -> bool) {
    && (forall p, r :: newer(p, r) ==> !newer(r, p))
    && (forall p, q, r :: !newer(q, p) && !newer(r, q) ==> !newer(r, p))
  }

  lemma TextRanks(z: Zone)
    ensures Ranks(NewerText(z))
  {
    var newer := NewerText(z);
    forall p, r | newer(p, r)
      ensures !newer(r, p)
    {
      LessIsOneWay(Text(z, r), Text(z, p));
    }
    forall p, q, r | !newer(q, p) && !newer(r, q)
      ensures !newer(r, p)
    {
      NotBelow(Text(z, p), Text(z, q), Text(z, r));
    }
  }

  lemma {:induction false} FirstExists(newer: (Run, Run) -> bool, rows: set<Run>) returns (first: Run)
    requires Ranks(newer) && rows != {}
    ensures first in rows && forall r :: r in rows ==> !newer(r, first)
    decreases |rows|
  {
    var some :| some in rows;
    first := some;
    assert !newer(some, some);
    var others := rows - {some};
    assert rows == others + {some};
    if others != {} {
      var rival := FirstExists(newer, others);
      if newer(rival, some) {
        first := rival;
      }
      forall r | r in others
        ensures !newer(r, first)
      {
        assert !newer(r, rival);
      }
    }
  }

  // The rows of a query with an order and a limit, collected one by one.
  method Collect(newer: (Run, Run) -> bool, eligible: set<Run>, limit: nat) returns (out: seq<Run>)
    requires Ranks(newer)
    ensures FirstRows(newer, eligible, limit, out)
  {
    out := [];
    var left := eligible;
    while |out| < limit && left != {}
      invariant |out| <= limit && |out| + |left| == |eligible| && left <= eligible
      invariant Distinct(out) && (forall r :: r in out ==> r in eligible && r !in left)
      invariant forall r :: r in eligible && r !in out ==> r in left
      invariant forall i, j :: 0 <= i < j < |out| ==> !newer(out[j], out[i])
      invariant forall p, r :: p in out && r in left ==> !newer(r, p)
      decreases |left|
    {
      ghost var first := FirstExists(newer, left);
      var next :| next in left && forall r :: r in left ==> !newer(r, next);
      out := out + [next];
      left := left - {next};
    }
  }

  method ListJobRunsPaged(z: Zone, rows: set<Run>, before: Option<Bound>, limit: nat) returns (out: seq<Run>)
    ensures IsPage(z, rows, before, limit, out)
  {
    TextRanks(z);
    out := Collect(NewerText(z), Eligible(z, rows, before), limit);
  }

  // What ListRunsV1 sends back as next_cursor; empty on a short page.
  function NextCursor(z: Zone, page: seq<Run>, limit: nat): string {
    if |page| == limit && page != [] then RunCursor(Stamp(page[|page| - 1].started, z.offset)) else ""
  }

  // --- From text to instants ------------------------------------------------------------------

  function Key(r: Run): int { WallNanos(r.started) }

  function Older(rows: set<Run>, key: int): set<Run> {
    set r | r in rows && Key(r) < key
  }

  // A page in terms of instants.
  ghost predicate PageOf(eligible: set<Run>, limit: nat, page: seq<Run>) {
    && Distinct(page) && (forall r :: r in page ==> r in eligible)
    && |page| == Min(limit, |eligible|)
    && (forall i, j :: 0 <= i < j < |page| ==> Key(page[i]) >= Key(page[j]))
    && (forall p, r :: p in page && r in eligible && r !in page ==> Key(p) >= Key(r))
  }

  predicate ValidRun(r: Run) {
    r.started.Valid() && (r.monotonic == "" || StartsWithSpace(r.monotonic))
  }

  ghost predicate ValidRows(rows: set<Run>) {
    forall r :: r in rows ==> ValidRun(r)
  }

  predicate ValidZone(z: Zone) {
    -86400 < z.offset < 86400 && z.offset % 60 == 0
  }

  lemma {:induction false} PrefixNotLess(a: string, b: string)
    ensures !TextLess(a + b, a)
  {
    if a != "" {
      assert (a + b)[1..] == a[1..] + b;
      PrefixNotLess(a[1..], b);
    }
  }

  // A zone that cursors name UTC, and that sorts before that name: GMT, say.
  predicate BelowUtc(z: Zone) {
    z.offset == 0 && TextLess(z.name, "UTC")
  }

  // Nothing that starts with a space changes how a name compares with letters.
  lemma {:induction false} NameDecides(name: string, more: string, other: string)
    requires more == "" || StartsWithSpace(more)
    requires forall c :: c in other ==> ' ' < c
    ensures TextLess(name + more, other) <==> TextLess(name, other)
  {
    if name == "" {
      assert name + more == more;
      assert other != "" ==> other[0] in other;
    } else if other != "" {
      assert (name + more)[1..] == name[1..] + more;
      assert forall c :: c in other[1..] ==> c in other;
      NameDecides(name[1..], more, other[1..]);
    }
  }

  // What precedes the name of a zone.
  function OffsetPart(offset: int): string {
    var minutes := (if offset < 0 then -offset else offset) / 60;
    " " + [if offset <= -60 then '-' else '+'] + Digits(minutes / 60, 2) + Digits(minutes % 60, 2) + " "
  }

  lemma ZoneParts(z: Zone, monotonic: string)
    ensures ZoneText(z, monotonic) == OffsetPart(z.offset) + (z.name + monotonic)
  {
  }

  // A row against the zone its cursor comes back with.
  lemma ZoneAgainstCursor(z: Zone, monotonic: string)
    requires monotonic == "" || StartsWithSpace(monotonic)
    ensures TextLess(ZoneText(z, monotonic), ZoneText(CursorZone(z), "")) <==> BelowUtc(z)
  {
    ZoneParts(z, monotonic);
    ZoneParts(CursorZone(z), "");
    var name := CursorZone(z).name;
    assert name + "" == name;
    TextLessBlocks(OffsetPart(z.offset), OffsetPart(z.offset), z.name + monotonic, name);
    NotLessThanItself(OffsetPart(z.offset));
    if z.offset == 0 {
      NameDecides(z.name, monotonic, "UTC");
    } else {
      PrefixNotLess(z.name, monotonic);
    }
  }

  // The zone that a cursor of a row comes back with.
  function CursorZone(z: Zone): Zone {
    if z.offset == 0 then UTC else z
  }

  lemma EndsWith(a: string, b: string)
    requires b != ""
    ensures (a + b)[|a + b| - 1] == b[|b| - 1]
  {
  }

  lemma FieldEnds(n: nat, width: nat, separator: char, rest: string)
    requires rest != ""
    ensures Field(n, width, separator, rest) != ""
    ensures Field(n, width, separator, rest)[|Field(n, width, separator, rest)| - 1] == rest[|rest| - 1]
  {
    EndsWith(Digits(n, width), [separator] + rest);
  }

  lemma WallTextEnds(c: Civil, zone: string)
    requires zone != ""
    ensures WallText(c, 'T', zone) != "" && WallText(c, 'T', zone)[|WallText(c, 'T', zone)| - 1] == zone[|zone| - 1]
  {
    var seconds := Digits(c.second, 2) + (Fraction(c.nanos) + zone);
    EndsWith(Digits(c.second, 2), Fraction(c.nanos) + zone);
    FieldEnds(c.minute, 2, ':', seconds);
    var minutes := Field(c.minute, 2, ':', seconds);
    FieldEnds(c.hour, 2, ':', minutes);
    var hours := Field(c.hour, 2, ':', minutes);
    FieldEnds(c.day, 2, 'T', hours);
    FieldEnds(c.month, 2, '-', Field(c.day, 2, 'T', hours));
    FieldEnds(c.year, 4, '-', Field(c.month, 2, '-', Field(c.day, 2, 'T', hours)));
  }

  lemma OffsetEnds(offset: int)
    ensures OffsetText(offset) != "" && (OffsetText(offset)[|OffsetText(offset)| - 1] == 'Z' <==> offset == 0)
  {
    if offset != 0 {
      var m := Digits(Minutes(offset) % 60, 2);
      EndsWith([Sign(offset)] + (Digits(Minutes(offset) / 60, 2) + ":"), m);
      assert OffsetText(offset) == [Sign(offset)] + (Digits(Minutes(offset) / 60, 2) + ":") + m;
      assert m[|m| - 1] in m && AllDigits(m);
    }
  }

  /** The cursor of a run comes back with the run's wall clock, and in the zone of the process unless
      that has offset 0: then it comes back in UTC, whatever the process calls its zone. */
  lemma CursorResolves(z: Zone, last: Run)
    requires ValidZone(z) && last.started.Valid()
    ensures Resolve(z, RunCursor(Stamp(last.started, z.offset))) == Some(Bound(last.started, CursorZone(z)))
  {
    CursorRoundTrip(Stamp(last.started, z.offset));
    OffsetEnds(z.offset);
    WallTextEnds(last.started, OffsetText(z.offset));
  }

  lemma RowSelectedIff(z: Zone, r: Run, last: Run)
    requires ValidRun(r) && last.started.Valid()
    ensures TextLess(Text(z, r), BeforeText(Bound(last.started, CursorZone(z)))) <==>
            Key(r) < Key(last) || (Key(r) == Key(last) && BelowUtc(z))
  {
    ZoneAgainstCursor(z, r.monotonic);
    TextOrderIsWallOrder(r.started, last.started, ZoneText(z, r.monotonic), ZoneText(CursorZone(z), ""));
  }

  function NotNewer(rows: set<Run>, key: int): set<Run> {
    set r | r in rows && Key(r) <= key
  }

  /** What the cursor of a run selects: the runs that started before it; and, in a zone of offset 0
      whose name sorts before "UTC", also those that started with it. */
  lemma CursorSelects(z: Zone, rows: set<Run>, last: Run)
    requires ValidZone(z) && ValidRows(rows) && last.started.Valid()
    ensures Eligible(z, rows, Resolve(z, RunCursor(Stamp(last.started, z.offset)))) ==
            if BelowUtc(z) then NotNewer(rows, Key(last)) else Older(rows, Key(last))
  {
    CursorResolves(z, last);
    forall r | r in rows
      ensures TextLess(Text(z, r), BeforeText(Bound(last.started, CursorZone(z)))) <==>
              Key(r) < Key(last) || (Key(r) == Key(last) && BelowUtc(z))
    {
      RowSelectedIff(z, r, last);
    }
  }

  /** The cursor of a stored run selects exactly the older ones if and only if the zone has another
      offset than 0, or a name that does not sort before "UTC". */
  lemma CursorSelectsOlderIff(z: Zone, rows: set<Run>, last: Run)
    requires ValidZone(z) && ValidRows(rows) && last in rows
    ensures Eligible(z, rows, Resolve(z, RunCursor(Stamp(last.started, z.offset)))) == Older(rows, Key(last)) <==>
            z.offset != 0 || !TextLess(z.name, "UTC")
  {
    CursorSelects(z, rows, last);
    assert last in NotNewer(rows, Key(last)) && last !in Older(rows, Key(last));
  }

  lemma NewerTextIsLater(z: Zone, p: Run, r: Run)
    requires p.started.Valid() && r.started.Valid() && !NewerText(z)(r, p)
    ensures Key(p) >= Key(r)
  {
    TextOrderIsWallOrder(p.started, r.started, ZoneText(z, p.monotonic), ZoneText(z, r.monotonic));
  }

  lemma RowsInOrder(newer: (Run, Run) -> bool, eligible: set<Run>, limit: nat, page: seq<Run>)
    requires FirstRows(newer, eligible, limit, page)
    requires forall p, r :: p in eligible && r in eligible && !newer(r, p) ==> Key(p) >= Key(r)
    ensures PageOf(eligible, limit, page)
  {
  }

  /** A page in the order of the texts is a page in the order of the instants. */
  lemma PageInOrder(z: Zone, eligible: set<Run>, limit: nat, page: seq<Run>)
    requires ValidRows(eligible) && FirstRows(NewerText(z), eligible, limit, page)
    ensures PageOf(eligible, limit, page)
  {
    var newer := NewerText(z);
    forall p, r | p in eligible && r in eligible && !newer(r, p)
      ensures Key(p) >= Key(r)
    {
      NewerTextIsLater(z, p, r);
    }
    RowsInOrder(newer, eligible, limit, page);
  }

  // --- Walking the history --------------------------------------------------------------------

  function Flatten(pages: seq<seq<Run>>): seq<Run> {
    if pages == [] then [] else pages[0] + Flatten(pages[1..])
  }

  // The key a full page continues from.
  function LastKey(page: seq<Run>): int
    requires page != []
  {
    Key(page[|page| - 1])
  }

  // The first requests of a walk, in terms of instants: full pages, but for the last.
  ghost predicate PrefixFrom(eligible: set<Run>, pages: seq<seq<Run>>, limit: nat)
    requires limit > 0
    decreases |pages|
  {
    && pages != [] && PageOf(eligible, limit, pages[0])
    && (|pages| > 1 ==> |pages[0]| == limit && PrefixFrom(Older(eligible, LastKey(pages[0])), pages[1..], limit))
  }

  // A walk: it ends with the first short page.
  ghost predicate WalkFrom(eligible: set<Run>, pages: seq<seq<Run>>, limit: nat)
    requires limit > 0
  {
    PrefixFrom(eligible, pages, limit) && |pages[|pages| - 1]| < limit
  }

  // A run that ties with the last row of a full page it did not make.
  ghost predicate Skipped(pages: seq<seq<Run>>, r: Run) {
    exists i :: TiesWithPage(pages, i, r)
  }

  predicate TiesWithPage(pages: seq<seq<Run>>, i: int, r: Run) {
    0 <= i < |pages| - 1 && pages[i] != [] && Key(r) == LastKey(pages[i]) && r !in pages[i]
  }

  ghost predicate Descending(rows: seq<Run>) {
    forall i, j :: 0 <= i < j < |rows| ==> Key(rows[i]) >= Key(rows[j])
  }

  function ToSet(page: seq<Run>): set<Run> { set r | r in page }

  lemma {:induction false} DistinctSize(page: seq<Run>)
    requires Distinct(page)
    ensures |ToSet(page)| == |page|
  {
    if page != [] {
      var rest := page[1..];
      assert forall k :: 0 <= k < |rest| ==> rest[k] == page[k + 1];
      DistinctSize(rest);
      assert ToSet(page) == {page[0]} + ToSet(rest);
    } else {
      assert ToSet(page) == {};
    }
  }

  lemma SubsetEqual(a: set<Run>, b: set<Run>)
    requires a <= b
    ensures |a| <= |b| && (|a| == |b| ==> a == b)
  {
    assert b == a + (b - a);
  }

  lemma ShortPageIsAll(eligible: set<Run>, limit: nat, page: seq<Run>)
    requires PageOf(eligible, limit, page) && |page| < limit
    ensures ToSet(page) == eligible
  {
    DistinctSize(page);
    SubsetEqual(ToSet(page), eligible);
  }

  // What a full page leaves behind.
  lemma FullPageSplits(eligible: set<Run>, limit: nat, page: seq<Run>, r: Run)
    requires limit > 0 && PageOf(eligible, limit, page) && |page| == limit && r in eligible
    ensures r in page ==> Key(r) >= LastKey(page)
    ensures r !in page ==> Key(r) <= LastKey(page)
  {
    var last := page[|page| - 1];
    assert last in page;
    if r in page {
      var i :| 0 <= i < |page| && page[i] == r;
      assert i < |page| - 1 ==> Key(page[i]) >= Key(page[|page| - 1]);
    }
  }

  lemma ShiftPages(pages: seq<seq<Run>>, r: Run)
    requires |pages| >= 2 && pages[0] != []
    ensures Skipped(pages, r) <==> (Key(r) == LastKey(pages[0]) && r !in pages[0]) || Skipped(pages[1..], r)
  {
    assert TiesWithPage(pages, 0, r) <==> Key(r) == LastKey(pages[0]) && r !in pages[0];
    forall i
      ensures TiesWithPage(pages[1..], i, r) <==> i >= 0 && TiesWithPage(pages, i + 1, r)
    {
    }
    if Skipped(pages, r) {
      var i :| TiesWithPage(pages, i, r);
      assert i > 0 ==> TiesWithPage(pages[1..], i - 1, r);
    }
    if Skipped(pages[1..], r) {
      var i :| TiesWithPage(pages[1..], i, r);
      assert TiesWithPage(pages, i + 1, r);
    }
  }

  lemma {:induction false} PrefixOrdered(eligible: set<Run>, pages: seq<seq<Run>>, limit: nat)
    requires limit > 0 && PrefixFrom(eligible, pages, limit)
    ensures Distinct(Flatten(pages)) && Descending(Flatten(pages))
    ensures forall r :: r in Flatten(pages) ==> r in eligible
    decreases |pages|
  {
    if |pages| == 1 {
      assert Flatten(pages) == pages[0];
    } else {
      PrefixOrdered(Older(eligible, LastKey(pages[0])), pages[1..], limit);
      JoinPages(eligible, pages[0], Flatten(pages[1..]), limit);
    }
  }

  lemma {:induction false} WalkCovers(eligible: set<Run>, pages: seq<seq<Run>>, limit: nat)
    requires limit > 0 && WalkFrom(eligible, pages, limit)
    ensures forall r :: r in eligible ==> (r in Flatten(pages) <==> !Skipped(pages, r))
    decreases |pages|
  {
    var page := pages[0];
    if |pages| == 1 {
      ShortPageIsAll(eligible, limit, page);
      assert Flatten(pages) == page;
      forall r | r in eligible
        ensures r in page && !Skipped(pages, r)
      {
        assert r in ToSet(page);
      }
    } else {
      var rest, key := pages[1..], LastKey(page);
      WalkCovers(Older(eligible, key), rest, limit);
      PrefixOrdered(Older(eligible, key), rest, limit);
      forall r | r in eligible
        ensures r in Flatten(pages) <==> !Skipped(pages, r)
      {
        FullPageSplits(eligible, limit, page, r);
        ShiftPages(pages, r);
        if Key(r) >= key {
          OlderNotSkippedTwice(Older(eligible, key), rest, limit, r);
        }
      }
    }
  }

  lemma JoinPages(eligible: set<Run>, page: seq<Run>, later: seq<Run>, limit: nat)
    requires limit > 0 && PageOf(eligible, limit, page) && |page| == limit
    requires Distinct(later) && Descending(later) && forall r :: r in later ==> r in Older(eligible, LastKey(page))
    ensures Distinct(page + later) && Descending(page + later)
    ensures forall r :: r in page + later ==> r in eligible
  {
    forall i, j | 0 <= i < |page| && 0 <= j < |later|
      ensures Key(page[i]) > Key(later[j])
    {
      assert page[i] in page && later[j] in later;
      FullPageSplits(eligible, limit, page, page[i]);
    }
  }

  // A run that is not in reach of the later pages ties with none of them.
  lemma {:induction false} OlderNotSkippedTwice(eligible: set<Run>, pages: seq<seq<Run>>, limit: nat, r: Run)
    requires limit > 0 && PrefixFrom(eligible, pages, limit)
    requires forall e :: e in eligible ==> Key(e) < Key(r)
    ensures !Skipped(pages, r)
    decreases |pages|
  {
    if |pages| > 1 {
      assert pages[0][|pages[0]| - 1] in pages[0];
      OlderNotSkippedTwice(Older(eligible, LastKey(pages[0])), pages[1..], limit, r);
      ShiftPages(pages, r);
    }
  }

  lemma {:induction false} PrefixCounts(eligible: set<Run>, pages: seq<seq<Run>>, limit: nat)
    requires limit > 0 && PrefixFrom(eligible, pages, limit)
    ensures |Flatten(pages)| == (|pages| - 1) * limit + |pages[|pages| - 1]|
    decreases |pages|
  {
    if |pages| == 1 {
      assert Flatten(pages) == pages[0];
    } else {
      PrefixCounts(Older(eligible, LastKey(pages[0])), pages[1..], limit);
      OneMorePage(|pages| - 1, limit);
    }
  }

  lemma OneMorePage(n: nat, limit: nat)
    requires n > 0
    ensures n * limit == limit + (n - 1) * limit
  {
  }

  // --- ListRunsV1, request after request ------------------------------------------------------

  // The cursor the i-th request carries.
  function RequestCursor(z: Zone, pages: seq<seq<Run>>, limit: nat, i: nat): string
    requires i <= |pages|
  {
    if i == 0 then "" else NextCursor(z, pages[i - 1], limit)
  }

  /** A consumer follows next_cursor, request after request.  The table may change in between, but
      only in rows that are not older than the cursor handed out last. */
  ghost predicate IsPrefix(z: Zone, tables: seq<set<Run>>, pages: seq<seq<Run>>, limit: nat) {
    && |tables| == |pages| > 0
    && (forall i :: 0 <= i < |pages| ==> Served(z, tables, pages, limit, i))
    && (forall i :: 0 <= i < |pages| - 1 ==> NextCursor(z, pages[i], limit) != "" && Unaged(tables, pages, i))
  }

  /** ... and stops at the first page without one. */
  ghost predicate IsWalk(z: Zone, tables: seq<set<Run>>, pages: seq<seq<Run>>, limit: nat) {
    IsPrefix(z, tables, pages, limit) && NextCursor(z, pages[|pages| - 1], limit) == ""
  }

  // The i-th request answers its cursor from the table as it is then.
  ghost predicate Served(z: Zone, tables: seq<set<Run>>, pages: seq<seq<Run>>, limit: nat, i: nat)
    requires i < |tables| == |pages|
  {
    ValidRows(tables[i]) && IsPage(z, tables[i], Resolve(z, RequestCursor(z, pages, limit, i)), limit, pages[i])
  }

  ghost predicate Unaged(tables: seq<set<Run>>, pages: seq<seq<Run>>, i: nat)
    requires i + 1 < |tables| == |pages|
  {
    pages[i] != [] ==> Older(tables[i + 1], LastKey(pages[i])) == Older(tables[i], LastKey(pages[i]))
  }

  lemma CursorNotEmpty(z: Zone, page: seq<Run>, limit: nat)
    ensures NextCursor(z, page, limit) == "" <==> |page| != limit || page == []
  {
  }

  // A process zone in which cursors select exactly the older rows.
  predicate CursorsRight(z: Zone) {
    ValidZone(z) && !BelowUtc(z)
  }

  // What a page's cursor selects from a table.
  function Selected(rows: set<Run>, key: int, below: bool): set<Run> {
    if below then NotNewer(rows, key) else Older(rows, key)
  }

  // The requests in terms of instants; `below` says that cursors come back in a zone that sorts later.
  ghost predicate Paged(tables: seq<set<Run>>, pages: seq<seq<Run>>, limit: nat, below: bool) {
    && limit > 0 && |tables| == |pages| > 0 && PageOf(tables[0], limit, pages[0])
    && forall i :: 0 <= i < |pages| - 1 ==> Follows(tables, pages, limit, below, i)
  }

  ghost predicate Follows(tables: seq<set<Run>>, pages: seq<seq<Run>>, limit: nat, below: bool, i: nat)
    requires limit > 0 && i + 1 < |tables| == |pages|
  {
    |pages[i]| == limit && PageOf(Selected(tables[i + 1], LastKey(pages[i]), below), limit, pages[i + 1]) &&
      Unaged(tables, pages, i)
  }

  lemma ServedFromTable(z: Zone, rows: set<Run>, before: Option<Bound>, limit: nat, page: seq<Run>)
    requires ValidRows(rows) && IsPage(z, rows, before, limit, page)
    ensures forall r :: r in page ==> r.started.Valid()
  {
  }

  /** What the requests of a consumer select, whatever changes in the table on the side of the newer
      rows. */
  lemma RequestsSelect(z: Zone, tables: seq<set<Run>>, pages: seq<seq<Run>>, limit: nat)
    requires ValidZone(z) && limit > 0 && IsPrefix(z, tables, pages, limit)
    ensures Paged(tables, pages, limit, BelowUtc(z))
    ensures IsWalk(z, tables, pages, limit) ==> |pages[|pages| - 1]| != limit
  {
    assert Served(z, tables, pages, limit, 0);
    PageInOrder(z, tables[0], limit, pages[0]);
    forall i | 0 <= i < |pages| - 1
      ensures Follows(tables, pages, limit, BelowUtc(z), i)
    {
      RequestSelects(z, tables, pages, limit, i);
    }
  }

  lemma RequestSelects(z: Zone, tables: seq<set<Run>>, pages: seq<seq<Run>>, limit: nat, i: nat)
    requires ValidZone(z) && limit > 0 && IsPrefix(z, tables, pages, limit) && i + 1 < |pages|
    ensures Follows(tables, pages, limit, BelowUtc(z), i)
  {
    CursorNotEmpty(z, pages[i], limit);
    var last := pages[i][|pages[i]| - 1];
    assert Served(z, tables, pages, limit, i);
    ServedFromTable(z, tables[i], Resolve(z, RequestCursor(z, pages, limit, i)), limit, pages[i]);
    assert last in pages[i];
    assert Served(z, tables, pages, limit, i + 1);
    CursorSelects(z, tables[i + 1], last);
    PageInOrder(z, Selected(tables[i + 1], Key(last), BelowUtc(z)), limit, pages[i + 1]);
  }

  // --- Where cursors are right ------------------------------------------------------------------

  // The rows within reach of the i-th request.
  function Reach(tables: seq<set<Run>>, pages: seq<seq<Run>>, i: nat): set<Run>
    requires i < |tables| == |pages| && (i > 0 ==> pages[i - 1] != [])
  {
    if i == 0 then tables[0] else Older(tables[i], LastKey(pages[i - 1]))
  }

  lemma PageWithinReach(tables: seq<set<Run>>, pages: seq<seq<Run>>, limit: nat, i: nat)
    requires Paged(tables, pages, limit, false) && i < |pages|
    ensures i > 0 ==> pages[i - 1] != []
    ensures PageOf(Reach(tables, pages, i), limit, pages[i])
  {
    if i > 0 {
      assert Follows(tables, pages, limit, false, i - 1);
    }
  }

  // Cursors only move back, so what one selects from the table it also selects from the last reach.
  lemma OlderOfOlder(rows: set<Run>, reach: set<Run>, key: int, last: Run)
    requires reach == Older(rows, key) && last in reach
    ensures Older(rows, Key(last)) == Older(reach, Key(last))
  {
  }

  lemma NextReach(tables: seq<set<Run>>, pages: seq<seq<Run>>, limit: nat, i: nat)
    requires Paged(tables, pages, limit, false) && i + 1 < |pages|
    ensures |pages[i]| == limit && (i > 0 ==> pages[i - 1] != [])
    ensures Reach(tables, pages, i + 1) == Older(Reach(tables, pages, i), LastKey(pages[i]))
  {
    assert Follows(tables, pages, limit, false, i);
    PageWithinReach(tables, pages, limit, i);
    if i > 0 {
      var last := pages[i][|pages[i]| - 1];
      assert last in pages[i];
      OlderOfOlder(tables[i], Reach(tables, pages, i), LastKey(pages[i - 1]), last);
    }
  }

  lemma {:induction false} ReachesMakePrefix(tables: seq<set<Run>>, pages: seq<seq<Run>>, limit: nat, i: nat)
    requires Paged(tables, pages, limit, false) && i < |pages|
    ensures (i > 0 ==> pages[i - 1] != []) && PrefixFrom(Reach(tables, pages, i), pages[i..], limit)
    decreases |pages| - i
  {
    PageWithinReach(tables, pages, limit, i);
    if i + 1 < |pages| {
      NextReach(tables, pages, limit, i);
      ReachesMakePrefix(tables, pages, limit, i + 1);
      assert pages[i..][1..] == pages[i + 1..];
    }
  }

  /** The requests of a consumer page through the table as it was at the first one. */
  lemma WalkReaches(z: Zone, tables: seq<set<Run>>, pages: seq<seq<Run>>, limit: nat)
    requires CursorsRight(z) && limit > 0 && IsPrefix(z, tables, pages, limit)
    ensures PrefixFrom(tables[0], pages, limit)
    ensures IsWalk(z, tables, pages, limit) ==> WalkFrom(tables[0], pages, limit)
  {
    RequestsSelect(z, tables, pages, limit);
    ReachesMakePrefix(tables, pages, limit, 0);
    assert pages[0..] == pages;
    PageWithinReach(tables, pages, limit, |pages| - 1);
  }

  /** A consumer never sees a run twice and sees them newest first, and however long it follows the
      cursors, it makes at most floor(n / limit) + 1 requests. */
  lemma RequestsBounded(z: Zone, tables: seq<set<Run>>, pages: seq<seq<Run>>, limit: nat)
    requires CursorsRight(z) && limit > 0 && IsPrefix(z, tables, pages, limit)
    ensures Distinct(Flatten(pages)) && Descending(Flatten(pages))
    ensures forall r :: r in Flatten(pages) ==> r in tables[0]
    ensures |pages| <= |tables[0]| / limit + 1
  {
    WalkReaches(z, tables, pages, limit);
    PrefixBounded(tables[0], pages, limit);
  }

  lemma PrefixBounded(rows: set<Run>, pages: seq<seq<Run>>, limit: nat)
    requires limit > 0 && PrefixFrom(rows, pages, limit)
    ensures Distinct(Flatten(pages)) && Descending(Flatten(pages))
    ensures forall r :: r in Flatten(pages) ==> r in rows
    ensures |pages| <= |rows| / limit + 1
  {
    PrefixOrdered(rows, pages, limit);
    PrefixCounts(rows, pages, limit);
    DistinctSize(Flatten(pages));
    SubsetEqual(ToSet(Flatten(pages)), rows);
    Quotient(|pages| - 1, |rows|, limit);
  }

  lemma Quotient(k: nat, n: nat, limit: nat)
    requires limit > 0 && k * limit <= n
    ensures k <= n / limit
  {
    var q, r := n / limit, n % limit;
    assert n == q * limit + r;
    assert k * limit < (q + 1) * limit;
  }

  /** The walk with ties: the only runs it skips are those that started at the very instant of a full
      page's last row without being on that page. */
  lemma WalkSkipsOnlyTies(z: Zone, tables: seq<set<Run>>, pages: seq<seq<Run>>, limit: nat)
    requires CursorsRight(z) && limit > 0 && IsWalk(z, tables, pages, limit)
    ensures Distinct(Flatten(pages)) && Descending(Flatten(pages))
    ensures forall r :: r in Flatten(pages) ==> r in tables[0]
    ensures forall r :: r in tables[0] ==> (r in Flatten(pages) <==> !Skipped(pages, r))
  {
    WalkReaches(z, tables, pages, limit);
    PrefixOrdered(tables[0], pages, limit);
    WalkCovers(tables[0], pages, limit);
  }

  ghost predicate DistinctKeys(rows: set<Run>) {
    forall p, r :: p in rows && r in rows && p != r ==> Key(p) != Key(r)
  }

  // Without ties there is nothing to skip.
  lemma NoneSkipped(rows: set<Run>, pages: seq<seq<Run>>, r: Run)
    requires DistinctKeys(rows) && r in rows && forall e :: e in Flatten(pages) ==> e in rows
    ensures !Skipped(pages, r)
  {
    forall i
      ensures !TiesWithPage(pages, i, r)
    {
      if 0 <= i < |pages| - 1 && pages[i] != [] {
        InFlatten(pages, i, pages[i][|pages[i]| - 1]);
      }
    }
  }

  lemma {:induction false} InFlatten(pages: seq<seq<Run>>, i: nat, r: Run)
    requires i < |pages| && r in pages[i]
    ensures r in Flatten(pages)
  {
    if i > 0 {
      InFlatten(pages[1..], i - 1, r);
    }
  }

  lemma AllWhenDistinct(rows: set<Run>, pages: seq<seq<Run>>)
    requires DistinctKeys(rows) && forall r :: r in Flatten(pages) ==> r in rows
    requires forall r :: r in rows ==> (r in Flatten(pages) <==> !Skipped(pages, r))
    ensures ToSet(Flatten(pages)) == rows
  {
    forall r | r in rows
      ensures r in Flatten(pages)
    {
      NoneSkipped(rows, pages, r);
    }
  }

  lemma WalkCounts(rows: set<Run>, pages: seq<seq<Run>>, limit: nat)
    requires limit > 0 && WalkFrom(rows, pages, limit) && ToSet(Flatten(pages)) == rows
    ensures |rows| == (|pages| - 1) * limit + |pages[|pages| - 1]| && |pages[|pages| - 1]| < limit
  {
    PrefixOrdered(rows, pages, limit);
    PrefixCounts(rows, pages, limit);
    DistinctSize(Flatten(pages));
  }

  /** The walk over distinct start times: the whole history as it was at the first request, each
      run once, in floor(n / limit) + 1 requests. */
  lemma WalkIsComplete(z: Zone, tables: seq<set<Run>>, pages: seq<seq<Run>>, limit: nat)
    requires CursorsRight(z) && limit > 0 && IsWalk(z, tables, pages, limit) && DistinctKeys(tables[0])
    ensures ToSet(Flatten(pages)) == tables[0] && Distinct(Flatten(pages)) && Descending(Flatten(pages))
    ensures |tables[0]| == (|pages| - 1) * limit + |pages[|pages| - 1]| && |pages[|pages| - 1]| < limit
  {
    WalkSkipsOnlyTies(z, tables, pages, limit);
    AllWhenDistinct(tables[0], pages);
    WalkReaches(z, tables, pages, limit);
    WalkCounts(tables[0], pages, limit);
  }

  // --- Where they are not -----------------------------------------------------------------------

  lemma NotNewerHasLast(rows: set<Run>, limit: nat, page: seq<Run>, last: Run)
    requires limit > 0 && PageOf(NotNewer(rows, Key(last)), limit, page) && last in rows && DistinctKeys(rows)
    ensures page != [] && page[0] == last
  {
    assert last in NotNewer(rows, Key(last));
    assert page[0] in page;
    if last in page {
      var i :| 0 <= i < |page| && page[i] == last;
      assert Key(page[0]) >= Key(page[i]);
    }
  }

  lemma {:induction false} PageFromTable(tables: seq<set<Run>>, pages: seq<seq<Run>>, limit: nat, below: bool, i: nat,
                                         r: Run)
    requires Paged(tables, pages, limit, below) && i < |pages| && r in pages[i]
    ensures r in tables[i]
  {
    if i > 0 {
      assert Follows(tables, pages, limit, below, i - 1);
    }
  }

  // In a zone below UTC a page starts with the run that ended the one before.
  lemma LastComesAgain(tables: seq<set<Run>>, pages: seq<seq<Run>>, limit: nat, i: nat)
    requires Paged(tables, pages, limit, true) && i + 1 < |pages|
    requires tables[i] == tables[i + 1] && DistinctKeys(tables[i])
    ensures |pages[i]| == limit && pages[i + 1] != [] && pages[i + 1][0] == pages[i][limit - 1]
  {
    assert Follows(tables, pages, limit, true, i);
    var last := pages[i][|pages[i]| - 1];
    PageFromTable(tables, pages, limit, true, i, last);
    NotNewerHasLast(tables[i + 1], limit, pages[i + 1], last);
  }

  lemma RepeatShows(pages: seq<seq<Run>>)
    requires |pages| >= 2 && pages[0] != [] && pages[1] != [] && pages[1][0] == pages[0][|pages[0]| - 1]
    ensures !Distinct(Flatten(pages))
  {
    assert Flatten(pages) == pages[0] + Flatten(pages[1..]);
    assert Flatten(pages[1..]) == pages[1] + Flatten(pages[1..][1..]);
    RepeatInConcat(pages[0], pages[1], Flatten(pages[1..][1..]));
  }

  lemma RepeatInConcat(a: seq<Run>, b: seq<Run>, c: seq<Run>)
    requires a != [] && b != [] && b[0] == a[|a| - 1]
    ensures !Distinct(a + (b + c))
  {
    assert (a + (b + c))[|a| - 1] == (a + (b + c))[|a|];
  }

  lemma RepeatSeen(tables: seq<set<Run>>, pages: seq<seq<Run>>, limit: nat)
    requires Paged(tables, pages, limit, true) && |pages| >= 2 && tables[1] == tables[0] && DistinctKeys(tables[0])
    ensures !Distinct(Flatten(pages))
  {
    LastComesAgain(tables, pages, limit, 0);
    assert pages[0] != [] && pages[1][0] == pages[0][|pages[0]| - 1];
    RepeatShows(pages);
  }

  /** Over a table of distinct start times that does not change, a consumer of two pages or more sees
      no run twice if and only if the zone is not one of offset 0 below "UTC". */
  lemma NothingTwiceIff(z: Zone, tables: seq<set<Run>>, pages: seq<seq<Run>>, limit: nat)
    requires ValidZone(z) && limit > 0 && IsPrefix(z, tables, pages, limit) && |pages| >= 2
    requires tables[1] == tables[0] && DistinctKeys(tables[0])
    ensures Distinct(Flatten(pages)) <==> z.offset != 0 || !TextLess(z.name, "UTC")
  {
    if BelowUtc(z) {
      RequestsSelect(z, tables, pages, limit);
      RepeatSeen(tables, pages, limit);
    } else {
      RequestsBounded(z, tables, pages, limit);
    }
  }

  lemma {:induction false} NeverAdvances(tables: seq<set<Run>>, pages: seq<seq<Run>>, i: nat)
    requires Paged(tables, pages, 1, true) && i < |pages|
    requires DistinctKeys(tables[0]) && tables[0] != {} && forall t :: t in tables ==> t == tables[0]
    ensures |pages[0]| == 1 && pages[i] == pages[0]
  {
    if i > 0 {
      NeverAdvances(tables, pages, i - 1);
      assert tables[i - 1] in tables && tables[i] in tables;
      LastComesAgain(tables, pages, 1, i - 1);
      assert Follows(tables, pages, 1, true, i - 1);
      assert |pages[i]| <= 1;
    }
  }

  /** London in winter: with one run a page, every page is the newest run again, and every one of them
      carries a cursor, so that a consumer gets neither to the second run nor to an end. */
  lemma GmtNeverAdvances(tables: seq<set<Run>>, pages: seq<seq<Run>>, i: nat)
    requires IsPrefix(Zone(0, "GMT"), tables, pages, 1) && i < |pages|
    requires DistinctKeys(tables[0]) && tables[0] != {} && forall t :: t in tables ==> t == tables[0]
    ensures |pages[0]| == 1 && pages[i] == pages[0] && NextCursor(Zone(0, "GMT"), pages[i], 1) != ""
  {
    RequestsSelect(Zone(0, "GMT"), tables, pages, 1);
    NeverAdvances(tables, pages, i);
    CursorNotEmpty(Zone(0, "GMT"), pages[i], 1);
  }

  lemma UnnamedZone(offset: int, sign: char, hours: nat, h: string)
    requires Sign(offset) == sign && Minutes(offset) == 60 * hours + 30 && Digits(hours, 2) == h
    ensures OffsetName(offset) == [sign] + h + "30"
  {
    assert Minutes(offset) / 60 == hours && Minutes(offset) % 60 == 30;
    HalfHour();
  }

  lemma HalfHour()
    ensures Digits(30, 2) == "30" && Digits(5, 2) == "05" && Digits(3, 2) == "03"
  {
    assert Digits(3, 1) == "3" && Digits(0, 1) == "0";
  }

  // How a zone without a name reads.
  lemma UnnamedZoneSpelled()
    ensures OffsetName(19800) == "+0530" && OffsetName(-12600) == "-0330"
  {
    HalfHour();
    UnnamedZone(19800, '+', 5, "05");
    UnnamedZone(-12600, '-', 3, "03");
  }

  // --- Limits and layouts -----------------------------------------------------------------------

  // What a handler makes of ?limit=; `asked` is None when it is missing or no number.
  function ClampLimit(asked: Option<int>, missing: int, most: int): (limit: int)
    ensures missing > 0 ==> limit > 0
    ensures most > 0 && missing <= most ==> limit <= most
    ensures asked.Some? && asked.value > 0 && (most <= 0 || asked.value <= most) ==> limit == asked.value
    ensures asked.None? || asked.value <= 0 ==> limit == missing
    ensures asked.Some? && asked.value > most > 0 ==> limit == most
  {
    if asked.None? || asked.value <= 0 then missing
    else if most > 0 && asked.value > most then most
    else asked.value
  }

  // A page of runs has a limit of 1 to 1000, so that the theorems above apply to whatever is asked.
  lemma RunLimitInRange(asked: Option<int>)
    ensures 1 <= ClampLimit(asked, 100, 1000) <= 1000
  {
  }
}
