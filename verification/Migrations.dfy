/** Schema migrations: which files run, in which order, and what a failed open leaves behind. */
module Migrations {
  import opened Timestamps

  // A directory entry with its text, trimmed.
  datatype Entry = Entry(name: string, isDir: bool, sql: string)

  // The migrations on record, and the scripts executed, both in order.  The schema is whatever the
  // scripts make of an empty one.
  datatype Db = Db(recorded: seq<string>, executed: seq<string>)

  const FRESH := Db([], [])

  // Where the handling of one file fails, if it does.
  datatype Fault = NoFault | CheckFault | ReadFault | BeginFault | ExecFault | RecordFault | CommitFault

  predicate HasSuffix(s: string, suffix: string) {
    |suffix| <= |s| && s[|s| - |suffix|..] == suffix
  }

  predicate IsUp(e: Entry) { !e.isDir && HasSuffix(e.name, ".up.sql") }

  predicate Placeholder(e: Entry) { e.sql == "" || e.sql == "-- placeholder" }

  ghost predicate DistinctNames(entries: seq<Entry>) {
    forall i, j :: 0 <= i < j < |entries| ==> entries[i].name != entries[j].name
  }

  ghost predicate Sorted(files: seq<Entry>) {
    forall i, j :: 0 <= i < j < |files| ==> !TextLess(files[j].name, files[i].name)
  }

  // --- The files, in order ----------------------------------------------------------------------

  // Where a name goes among sorted ones.
  method Place(files: seq<Entry>, e: Entry) returns (at: nat)
    requires Sorted(files)
    ensures at <= |files|
    ensures forall i :: 0 <= i < at ==> !TextLess(e.name, files[i].name)
    ensures forall i :: at <= i < |files| ==> !TextLess(files[i].name, e.name)
  {
    at := |files|;
    while at > 0 && TextLess(e.name, files[at - 1].name)
      invariant at <= |files|
      invariant forall i :: at <= i < |files| ==> TextLess(e.name, files[i].name)
    {
      at := at - 1;
    }
    forall i | 0 <= i < at
      ensures !TextLess(e.name, files[i].name)
    {
      if i < at - 1 {
        NotBelow(e.name, files[at - 1].name, files[i].name);
      }
    }
    forall i | at <= i < |files|
      ensures !TextLess(files[i].name, e.name)
    {
      LessIsOneWay(e.name, files[i].name);
    }
  }

  function Inserted(files: seq<Entry>, at: nat, e: Entry): seq<Entry>
    requires at <= |files|
  {
    files[..at] + [e] + files[at..]
  }

  lemma InsertedMembers(files: seq<Entry>, at: nat, e: Entry)
    requires at <= |files|
    ensures multiset(Inserted(files, at, e)) == multiset(files) + multiset{e}
  {
    assert files == files[..at] + files[at..];
  }

  lemma InsertedSorted(files: seq<Entry>, at: nat, e: Entry)
    requires Sorted(files) && at <= |files|
    requires forall i :: 0 <= i < at ==> !TextLess(e.name, files[i].name)
    requires forall i :: at <= i < |files| ==> !TextLess(files[i].name, e.name)
    ensures Sorted(Inserted(files, at, e))
  {
    var more := Inserted(files, at, e);
    forall i, j | 0 <= i < j < |more|
      ensures !TextLess(more[j].name, more[i].name)
    {
      assert more[i] == if i < at then files[i] else if i == at then e else files[i - 1];
      assert more[j] == if j < at then files[j] else if j == at then e else files[j - 1];
    }
  }

  lemma InsertedDistinct(files: seq<Entry>, at: nat, e: Entry)
    requires DistinctNames(files) && at <= |files| && forall i :: 0 <= i < |files| ==> files[i].name != e.name
    ensures DistinctNames(Inserted(files, at, e))
  {
    var more := Inserted(files, at, e);
    forall i, j | 0 <= i < j < |more|
      ensures more[i].name != more[j].name
    {
      assert more[i] == if i < at then files[i] else if i == at then e else files[i - 1];
      assert more[j] == if j < at then files[j] else if j == at then e else files[j - 1];
    }
  }

  // The up-migrations of a directory, sorted by name.
  method UpFiles(entries: seq<Entry>) returns (files: seq<Entry>)
    requires DistinctNames(entries)
    ensures Sorted(files) && DistinctNames(files)
    ensures multiset(files) == multiset(Filtered(entries))
  {
    files := [];
    for i := 0 to |entries|
      invariant Sorted(files) && DistinctNames(files)
      invariant multiset(files) == multiset(Filtered(entries[..i]))
    {
      FilteredSnoc(entries, i);
      if IsUp(entries[i]) {
        forall j | 0 <= j < |files|
          ensures files[j].name != entries[i].name
        {
          assert files[j] in multiset(files);
          FilteredMembers(entries[..i], files[j]);
        }
        var at := Place(files, entries[i]);
        InsertedMembers(files, at, entries[i]);
        InsertedSorted(files, at, entries[i]);
        InsertedDistinct(files, at, entries[i]);
        files := Inserted(files, at, entries[i]);
      }
    }
    assert entries[..|entries|] == entries;
  }

  lemma {:induction false} FilteredMembers(entries: seq<Entry>, f: Entry)
    ensures f in Filtered(entries) <==> f in entries && IsUp(f)
  {
    if entries != [] {
      FilteredMembers(entries[..|entries| - 1], f);
      assert entries == entries[..|entries| - 1] + [entries[|entries| - 1]];
    }
  }

  function Filtered(entries: seq<Entry>): seq<Entry> {
    if entries == [] then []
    else Filtered(entries[..|entries| - 1]) + if IsUp(entries[|entries| - 1]) then [entries[|entries| - 1]] else []
  }

  /** Only files named *.up.sql run: no directory, and none of the scripts that undo a migration. */
  lemma IsUpSpelled(stem: string, sql: string)
    ensures IsUp(Entry(stem + ".up.sql", false, sql)) && !IsUp(Entry(stem + ".up.sql", true, sql))
    ensures !IsUp(Entry(stem + ".down.sql", false, sql))
  {
    assert HasSuffix(stem + ".up.sql", ".up.sql");
    var down := stem + ".down.sql";
    assert down[|down| - 7] == 'o' && ".up.sql"[0] == '.';
  }

  lemma FilteredSnoc(entries: seq<Entry>, i: nat)
    requires i < |entries|
    ensures Filtered(entries[..i + 1]) == Filtered(entries[..i]) + if IsUp(entries[i]) then [entries[i]] else []
  {
    assert entries[..i + 1][..i] == entries[..i];
  }

  // --- One file, and all of them ----------------------------------------------------------------

  function Applied(db: Db, e: Entry): Db {
    Db(db.recorded + [e.name], if Placeholder(e) then db.executed else db.executed + [e.sql])
  }

  predicate Fails(db: Db, e: Entry, fault: Fault) {
    || fault == CheckFault
    || (e.name !in db.recorded && fault == ReadFault)
    || (e.name !in db.recorded && fault == RecordFault)
    || (e.name !in db.recorded && !Placeholder(e) && fault != NoFault)
  }

  // The outcome of an open from the i-th file on: whether it succeeds, and the database after it.
  function Migrated(db: Db, files: seq<Entry>, i: nat, faults: string -> Fault): (bool, Db)
    requires i <= |files|
    decreases |files| - i
  {
    if i == |files| then (true, db)
    else if Fails(db, files[i], faults(files[i].name)) then (false, db)
    else Migrated(if files[i].name in db.recorded then db else Applied(db, files[i]), files, i + 1, faults)
  }

  class Database {
    var db: Db

    constructor ()
      ensures db == FRESH
    {
      db := FRESH;
    }

    /** One open: `dirFault` says that the record table or the directory cannot be had.  The files it
        goes through are the up-migrations of the directory in the order of their names. */
    method RunMigrations(entries: seq<Entry>, dirFault: bool, faults: string -> Fault) returns (ok: bool,
                         ghost files: seq<Entry>)
      requires DistinctNames(entries)
      modifies this
      ensures Sorted(files) && DistinctNames(files)
      ensures forall e :: e in files <==> e in entries && IsUp(e)
      ensures (ok, db) == if dirFault then (false, old(db)) else Migrated(old(db), files, 0, faults)
    {
      var upFiles := UpFiles(entries);
      files := upFiles;
      forall e
        ensures e in files <==> e in entries && IsUp(e)
      {
        FilteredMembers(entries, e);
        assert e in files <==> e in multiset(files);
      }
      if dirFault {
        return false, files;
      }
      ok := ApplyAll(upFiles, faults);
    }

    /** Applies the files not on record yet, each in its own transaction, up to the first failure. */
    method ApplyAll(files: seq<Entry>, faults: string -> Fault) returns (ok: bool)
      modifies this
      ensures (ok, db) == Migrated(old(db), files, 0, faults)
    {
      for i := 0 to |files|
        invariant Migrated(db, files, i, faults) == Migrated(old(db), files, 0, faults)
      {
        var name, fault := files[i].name, faults(files[i].name);
        if fault == CheckFault {
          return false;
        }
        if name in db.recorded {
          continue;
        }
        if fault == ReadFault {
          return false;
        }
        if Placeholder(files[i]) {
          if fault == RecordFault {
            return false;
          }
          db := db.(recorded := db.recorded + [name]);
          continue;
        }
        if fault == BeginFault {
          return false;
        }
        var staged := db;
        if fault == ExecFault {
          return false;
        }
        staged := staged.(executed := staged.executed + [files[i].sql]);
        if fault == RecordFault {
          return false;
        }
        staged := staged.(recorded := staged.recorded + [name]);
        if fault == CommitFault {
          return false;
        }
        db := staged;
      }
      ok := true;
    }
  }

  // --- Exactly once, in order -------------------------------------------------------------------

  function Names(files: seq<Entry>): seq<string> {
    seq(|files|, i requires 0 <= i < |files| => files[i].name)
  }

  function Scripts(files: seq<Entry>): seq<string> {
    if files == [] then []
    else Scripts(files[..|files| - 1]) + if Placeholder(files[|files| - 1]) then [] else [files[|files| - 1].sql]
  }

  // The database is where the first k files bring an empty one.
  ghost predicate UpTo(db: Db, files: seq<Entry>, k: nat) {
    k <= |files| && db.recorded == Names(files[..k]) && db.executed == Scripts(files[..k])
  }

  lemma OneMoreFile(db: Db, files: seq<Entry>, k: nat)
    requires UpTo(db, files, k) && k < |files|
    ensures UpTo(Applied(db, files[k]), files, k + 1)
  {
    assert files[..k + 1][..k] == files[..k];
  }

  lemma RecordedIff(db: Db, files: seq<Entry>, k: nat, i: nat)
    requires UpTo(db, files, k) && DistinctNames(files) && i < |files|
    ensures files[i].name in db.recorded <==> i < k
  {
    if i < k {
      assert db.recorded[i] == files[i].name;
    }
  }

  // An open goes on from where the database is, and no further back.
  lemma {:induction false} OpenContinues(db: Db, files: seq<Entry>, i: nat, k: nat,
                                         faults: string -> Fault) returns (m: nat)
    requires DistinctNames(files) && i <= k && UpTo(db, files, k)
    ensures k <= m <= |files| && UpTo(Migrated(db, files, i, faults).1, files, m)
    ensures Migrated(db, files, i, faults).0 ==> m == |files|
    ensures k == |files| ==> Migrated(db, files, i, faults).1 == db
    decreases |files| - i
  {
    m := k;
    if i < |files| && !Fails(db, files[i], faults(files[i].name)) {
      RecordedIff(db, files, k, i);
      if i < k {
        m := OpenContinues(db, files, i + 1, k, faults);
      } else {
        OneMoreFile(db, files, k);
        m := OpenContinues(Applied(db, files[k]), files, i + 1, k + 1, faults);
      }
    }
  }

  // One open after another, each with its own failures.
  function Opens(files: seq<Entry>, attempts: seq<string -> Fault>): Db {
    if attempts == [] then FRESH
    else Migrated(Opens(files, attempts[..|attempts| - 1]), files, 0, attempts[|attempts| - 1]).1
  }

  /** After any opens with any failures the database is where some first k files bring an empty one:
      their names are recorded in order, each once, and their scripts executed in that order. */
  lemma {:induction false} AppliedInOrder(files: seq<Entry>, attempts: seq<string -> Fault>) returns (k: nat)
    requires DistinctNames(files)
    ensures UpTo(Opens(files, attempts), files, k)
  {
    if attempts == [] {
      k := 0;
    } else {
      var before := attempts[..|attempts| - 1];
      var j := AppliedInOrder(files, before);
      k := OpenContinues(Opens(files, before), files, 0, j, attempts[|attempts| - 1]);
    }
  }

  /** Opens never take anything back, and none is applied twice. */
  lemma {:induction false} NothingRepeats(files: seq<Entry>, attempts: seq<string -> Fault>)
    requires DistinctNames(files)
    ensures var recorded := Opens(files, attempts).recorded;
            && (forall i, j :: 0 <= i < j < |recorded| ==> recorded[i] != recorded[j])
            && forall name :: name in recorded ==> exists e :: e in files && e.name == name
  {
    var k := AppliedInOrder(files, attempts);
    var recorded := Opens(files, attempts).recorded;
    forall i | 0 <= i < |recorded|
      ensures recorded[i] == files[i].name && files[i] in files
    {
    }
  }

  /** The open that succeeds has applied every file; one more open, whatever fails in it, changes
      nothing. */
  lemma SuccessIsComplete(files: seq<Entry>, attempts: seq<string -> Fault>, last: string -> Fault,
                          again: string -> Fault)
    requires DistinctNames(files) && Migrated(Opens(files, attempts), files, 0, last).0
    ensures var db := Migrated(Opens(files, attempts), files, 0, last).1;
            UpTo(db, files, |files|) && Migrated(db, files, 0, again).1 == db
  {
    var k := AppliedInOrder(files, attempts);
    var m := OpenContinues(Opens(files, attempts), files, 0, k, last);
    var n := OpenContinues(Migrated(Opens(files, attempts), files, 0, last).1, files, 0, m, again);
  }

  // The failure stops an open at a file that is not on record.
  predicate Breaks(e: Entry, fault: Fault) {
    if Placeholder(e) then fault in {CheckFault, ReadFault, RecordFault} else fault != NoFault
  }

  ghost predicate FineUntil(files: seq<Entry>, i: nat, stop: nat, faults: string -> Fault)
    requires stop <= |files|
  {
    forall j :: i <= j < stop ==> faults(files[j].name) == NoFault
  }

  /** Where an open stops: everything before the first failing file is applied, that file and all
      after it have left no trace. */
  lemma {:induction false} FailureLeavesNoTrace(db: Db, files: seq<Entry>, i: nat, k: nat, faults: string -> Fault,
                                                stop: nat)
    requires DistinctNames(files) && i <= k <= stop < |files| && UpTo(db, files, k)
    requires FineUntil(files, i, stop, faults) && Breaks(files[stop], faults(files[stop].name))
    ensures !Migrated(db, files, i, faults).0 && UpTo(Migrated(db, files, i, faults).1, files, stop)
    decreases |files| - i
  {
    RecordedIff(db, files, k, i);
    if i == stop {
      StopsThere(db, files, i, faults);
    } else if i < k {
      SkipsOn(db, files, i, faults);
      FailureLeavesNoTrace(db, files, i + 1, k, faults, stop);
    } else {
      AppliesOn(db, files, i, faults);
      OneMoreFile(db, files, k);
      FailureLeavesNoTrace(Applied(db, files[k]), files, i + 1, k + 1, faults, stop);
    }
  }

  lemma StopsThere(db: Db, files: seq<Entry>, i: nat, faults: string -> Fault)
    requires i < |files| && files[i].name !in db.recorded && Breaks(files[i], faults(files[i].name))
    ensures Migrated(db, files, i, faults) == (false, db)
  {
  }

  lemma SkipsOn(db: Db, files: seq<Entry>, i: nat, faults: string -> Fault)
    requires i < |files| && files[i].name in db.recorded && faults(files[i].name) == NoFault
    ensures Migrated(db, files, i, faults) == Migrated(db, files, i + 1, faults)
  {
  }

  lemma AppliesOn(db: Db, files: seq<Entry>, i: nat, faults: string -> Fault)
    requires i < |files| && files[i].name !in db.recorded && faults(files[i].name) == NoFault
    ensures Migrated(db, files, i, faults) == Migrated(Applied(db, files[i]), files, i + 1, faults)
  {
  }

  // --- One release after another ----------------------------------------------------------------

  // More opens, from a database that is there already.
  function OpensFrom(db: Db, files: seq<Entry>, attempts: seq<string -> Fault>): Db {
    if attempts == [] then db
    else Migrated(OpensFrom(db, files, attempts[..|attempts| - 1]), files, 0, attempts[|attempts| - 1]).1
  }

  lemma {:induction false} OpensGoOn(db: Db, files: seq<Entry>, k: nat, attempts: seq<string -> Fault>) returns (m: nat)
    requires DistinctNames(files) && UpTo(db, files, k)
    ensures k <= m && UpTo(OpensFrom(db, files, attempts), files, m)
  {
    if attempts == [] {
      m := k;
    } else {
      var before := attempts[..|attempts| - 1];
      var j := OpensGoOn(db, files, k, before);
      m := OpenContinues(OpensFrom(db, files, before), files, 0, j, attempts[|attempts| - 1]);
    }
  }

  /** An upgrade to a release that adds files after the known ones goes on where the old release
      stopped, whatever failed before and since: a prefix of the longer list is applied, in order, each
      once; and once an open of the new release succeeds, it is the whole list. */
  lemma UpgradeGoesOn(files: seq<Entry>, more: seq<Entry>, earlier: seq<string -> Fault>, later: seq<string -> Fault>,
                      last: string -> Fault)
    returns (k: nat, m: nat)
    requires DistinctNames(files + more)
    ensures UpTo(Opens(files, earlier), files, k) && k <= m &&
            UpTo(OpensFrom(Opens(files, earlier), files + more, later), files + more, m)
    ensures var (ok, db) := Migrated(OpensFrom(Opens(files, earlier), files + more, later), files + more, 0, last);
            ok ==> UpTo(db, files + more, |files + more|)
  {
    var all := files + more;
    assert forall i :: 0 <= i < |files| ==> all[i] == files[i];
    k := AppliedInOrder(files, earlier);
    assert all[..k] == files[..k];
    m := OpensGoOn(Opens(files, earlier), all, k, later);
    var end := OpenContinues(OpensFrom(Opens(files, earlier), all, later), all, 0, m, last);
  }

  // One open of some release.
  datatype Open = Open(files: seq<Entry>, faults: string -> Fault)

  function Releases(opens: seq<Open>): Db {
    if opens == [] then FRESH
    else Migrated(Releases(opens[..|opens| - 1]), opens[|opens| - 1].files, 0, opens[|opens| - 1].faults).1
  }

  ghost predicate NoRepeats(names: seq<string>) {
    forall i, j :: 0 <= i < j < |names| ==> names[i] != names[j]
  }

  lemma {:induction false} OpenAddsOnce(db: Db, files: seq<Entry>, i: nat, faults: string -> Fault)
    requires i <= |files| && NoRepeats(db.recorded)
    ensures var after := Migrated(db, files, i, faults).1;
            NoRepeats(after.recorded) && db.recorded <= after.recorded && db.executed <= after.executed
    decreases |files| - i
  {
    if i < |files| && !Fails(db, files[i], faults(files[i].name)) {
      var next := if files[i].name in db.recorded then db else Applied(db, files[i]);
      OpenAddsOnce(next, files, i + 1, faults);
    }
  }

  /** Over any releases whatever, with files added, dropped, renamed or changed between them, nothing is
      recorded twice and nothing is taken back. */
  lemma {:induction false} NothingRepeatsAcrossReleases(opens: seq<Open>, n: nat)
    requires n <= |opens|
    ensures NoRepeats(Releases(opens).recorded)
    ensures Releases(opens[..n]).recorded <= Releases(opens).recorded &&
            Releases(opens[..n]).executed <= Releases(opens).executed
  {
    if n == |opens| {
      assert opens[..n] == opens;
      if opens != [] {
        NothingRepeatsAcrossReleases(opens[..|opens| - 1], |opens| - 1);
        OpenAddsOnce(Releases(opens[..|opens| - 1]), opens[|opens| - 1].files, 0, opens[|opens| - 1].faults);
      }
    } else {
      var last := |opens| - 1;
      assert opens[..last][..n] == opens[..n];
      NothingRepeatsAcrossReleases(opens[..last], n);
      OpenAddsOnce(Releases(opens[..last]), opens[last].files, 0, opens[last].faults);
    }
  }

  // --- Which scripts run ----------------------------------------------------------------------------

  // The texts of some files in order, without the empty ones and those that say "-- placeholder".
  function RealScripts(files: seq<Entry>): seq<string> {
    if files == [] then []
    else
      var last := files[|files| - 1];
      RealScripts(files[..|files| - 1]) + if last.sql == "" || last.sql == "-- placeholder" then [] else [last.sql]
  }

  lemma {:induction false} ScriptsAreReal(files: seq<Entry>)
    ensures Scripts(files) == RealScripts(files)
  {
    if files != [] {
      ScriptsAreReal(files[..|files| - 1]);
    }
  }

  /** After any opens with any failures, some first k files are recorded, and what was executed is their
      texts in order, each once, with only the empty ones and the placeholders left out. */
  lemma ExecutedExactly(files: seq<Entry>, attempts: seq<string -> Fault>) returns (k: nat)
    requires DistinctNames(files)
    ensures k <= |files| && Opens(files, attempts).recorded == Names(files[..k])
    ensures Opens(files, attempts).executed == RealScripts(files[..k])
  {
    k := AppliedInOrder(files, attempts);
    ScriptsAreReal(files[..k]);
  }

  lemma {:induction false} RealScriptsHold(files: seq<Entry>, sql: string)
    ensures sql in RealScripts(files) <==>
            sql != "" && sql != "-- placeholder" && exists i :: 0 <= i < |files| && files[i].sql == sql
  {
    if files != [] {
      var before, last := files[..|files| - 1], files[|files| - 1];
      RealScriptsHold(before, sql);
      if i :| 0 <= i < |files| && files[i].sql == sql {
        assert i < |before| ==> before[i].sql == sql;
      }
      if sql in RealScripts(before) {
        var i :| 0 <= i < |before| && before[i].sql == sql;
        assert files[i].sql == sql;
      }
    }
  }

  /** After an open that succeeds, the texts executed are those of the files, all of them, but for the
      empty ones and the placeholders. */
  lemma SuccessRunsAll(files: seq<Entry>, attempts: seq<string -> Fault>, last: string -> Fault, sql: string)
    requires DistinctNames(files) && Migrated(Opens(files, attempts), files, 0, last).0
    ensures sql in Migrated(Opens(files, attempts), files, 0, last).1.executed <==>
            sql != "" && sql != "-- placeholder" && exists i :: 0 <= i < |files| && files[i].sql == sql
  {
    SuccessIsComplete(files, attempts, last, last);
    assert files[..|files|] == files;
    ScriptsAreReal(files);
    RealScriptsHold(files, sql);
  }

  /** A script that merely begins with a comment is executed. */
  lemma CommentedScriptRuns(name: string, rest: string, faults: string -> Fault)
    requires rest != " placeholder" && faults(name) == NoFault
    ensures Migrated(FRESH, [Entry(name, false, "--" + rest)], 0, faults) == (true, Db([name], ["--" + rest]))
  {
    var e := Entry(name, false, "--" + rest);
    assert ("-- placeholder")[2..] == " placeholder" && e.sql[2..] == rest;
    assert Applied(FRESH, e) == Db([name], [e.sql]);
  }

  // --- When an open succeeds ------------------------------------------------------------------------

  // The failure keeps a file from being passed, given whether it is on record.
  predicate Stops(e: Entry, recorded: bool, fault: Fault) {
    if recorded then fault == CheckFault
    else if e.sql == "" || e.sql == "-- placeholder" then fault in {CheckFault, ReadFault, RecordFault}
    else fault != NoFault
  }

  lemma StopsIsFails(db: Db, e: Entry, fault: Fault)
    ensures Fails(db, e, fault) <==> Stops(e, e.name in db.recorded, fault)
  {
  }

  lemma {:induction false} SucceedsFrom(db: Db, files: seq<Entry>, i: nat, k: nat, faults: string -> Fault)
    requires DistinctNames(files) && i <= k && UpTo(db, files, k)
    ensures Migrated(db, files, i, faults).0 <==>
            forall j :: i <= j < |files| ==> !Stops(files[j], j < k, faults(files[j].name))
    decreases |files| - i
  {
    if i < |files| {
      RecordedIff(db, files, k, i);
      StopsIsFails(db, files[i], faults(files[i].name));
      if !Fails(db, files[i], faults(files[i].name)) {
        if i < k {
          SucceedsFrom(db, files, i + 1, k, faults);
        } else {
          OneMoreFile(db, files, k);
          SucceedsFrom(Applied(db, files[k]), files, i + 1, k + 1, faults);
        }
      }
    }
  }

  /** An open succeeds if and only if no file stops it: on a file on record only the check can, on a
      placeholder also reading or recording it, and on any other everything. */
  lemma OpenSucceedsIff(db: Db, files: seq<Entry>, k: nat, faults: string -> Fault)
    requires DistinctNames(files) && UpTo(db, files, k)
    ensures Migrated(db, files, 0, faults).0 <==>
            forall j :: 0 <= j < |files| ==> !Stops(files[j], j < k, faults(files[j].name))
  {
    SucceedsFrom(db, files, 0, k, faults);
  }
}
