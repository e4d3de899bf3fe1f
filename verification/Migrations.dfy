/** Schema migrations over any sequence of starts, each of which may fail or crash at any statement.

    A script acts on the schema through exec; None means it fails on that schema. Each script and its
    bookkeeping row commit in one transaction. */
module Migrations {
  import opened Wrappers

  /** A migration file; a directory lists its files in name order, each name once. */
  datatype File = File(name: string, script: string)

  /** What interrupts the handling of one file: nothing, some statement up to and including the commit,
      or a crash right after the commit. */
  datatype Fault = NoFault | AtCheck | AtRead | AtBegin | AtExec | AtRecord | AtCommit | AfterCommit

  type Exec<!S> = (string, S) -> Option<S>

  /** The durable database; applied is schema_migrations with the contents that ran. */
  datatype Db<S> = Db(ready: bool, applied: seq<File>, schema: S)

  function Names(fs: seq<File>): set<string> {
    set f | f in fs :: f.name
  }

  /** The handling of one file: the database it leaves and whether the loop goes on. */
  function Handled<S>(exec: Exec<S>, db: Db<S>, f: File, fault: Fault): (Db<S>, bool) {
    if fault == AtCheck then (db, false)
    else if f.name in Names(db.applied) then (db, true)
    else if exec(f.script, db.schema).None? || (fault != NoFault && fault != AfterCommit) then (db, false)
    else (db.(applied := db.applied + [f], schema := exec(f.script, db.schema).value), fault == NoFault)
  }

  /** One start, after the bookkeeping table exists: the database it leaves and whether it succeeded. */
  function Migrated<S>(exec: Exec<S>, db: Db<S>, files: seq<File>, faults: seq<Fault>): (Db<S>, bool)
    requires |files| == |faults|
    decreases |files|
  {
    if files == [] then (db, true)
    else
      var (db', go) := Handled(exec, db, files[0], faults[0]);
      if go then Migrated(exec, db', files[1..], faults[1..]) else (db', false)
  }

  /** A start: the files found, whether the bookkeeping table could be created, and the faults. */
  datatype Start = Start(files: seq<File>, tableUp: bool, faults: seq<Fault>) {
    predicate Valid() {
      |files| == |faults| && forall i, j | 0 <= i < j < |files| :: files[i].name != files[j].name
    }
  }

  type Boot = s: Start | s.Valid() witness Start([], true, [])

  function Begun<S>(exec: Exec<S>, db: Db<S>, s: Boot): (Db<S>, bool) {
    if s.files == [] || !s.tableUp then (db, false)
    else Migrated(exec, db.(ready := true), s.files, s.faults)
  }

  lemma UnfoldMigrated<S>(exec: Exec<S>, db: Db<S>, s: Boot, d: nat)
    requires d < |s.files|
    ensures Migrated(exec, db, s.files[d..], s.faults[d..])
         == if Handled(exec, db, s.files[d], s.faults[d]).1
            then Migrated(exec, Handled(exec, db, s.files[d], s.faults[d]).0, s.files[d + 1..], s.faults[d + 1..])
            else (Handled(exec, db, s.files[d], s.faults[d]).0, false)
  {
    assert s.files[d..][0] == s.files[d] && s.files[d..][1..] == s.files[d + 1..];
    assert s.faults[d..][0] == s.faults[d] && s.faults[d..][1..] == s.faults[d + 1..];
  }

  /** The scripts one after the other, if each succeeds. */
  function Fold<S>(exec: Exec<S>, base: S, fs: seq<File>): Option<S> {
    if fs == [] then Some(base)
    else
      var before := Fold(exec, base, fs[..|fs| - 1]);
      if before.None? then None else exec(fs[|fs| - 1].script, before.value)
  }

  // ---------------------------------------------------------------------------------------------
  // What one start does
  // ---------------------------------------------------------------------------------------------

  predicate Recorded(applied: seq<File>, name: string) {
    exists i | 0 <= i < |applied| :: applied[i].name == name
  }

  /** The files that are not on record, in their order. */
  function Unrecorded(applied: seq<File>, files: seq<File>): seq<File> {
    if files == [] then []
    else
      var f := files[|files| - 1];
      Unrecorded(applied, files[..|files| - 1]) + if Recorded(applied, f.name) then [] else [f]
  }

  lemma {:induction false} UnrecordedExact(applied: seq<File>, files: seq<File>, f: File)
    ensures f in Unrecorded(applied, files) <==> f in files && !Recorded(applied, f.name)
  {
    if files == [] {
    } else {
      var before, g := files[..|files| - 1], files[|files| - 1];
      assert before + [g] == files;
      UnrecordedExact(applied, before, f);
    }
  }

  /** The i-th file lets the start go on: it is on record and the check of that works, or nothing goes wrong
      and it and all unrecorded files before it succeed one after the other. */
  predicate Passes<S>(exec: Exec<S>, db: Db<S>, s: Boot, i: nat)
    requires i < |s.files|
  {
    if Recorded(db.applied, s.files[i].name) then s.faults[i] != AtCheck
    else s.faults[i] == NoFault && Fold(exec, db.schema, Unrecorded(db.applied, s.files[..i + 1])).Some?
  }

  predicate PassesUpTo<S>(exec: Exec<S>, db: Db<S>, s: Boot, d: nat)
    requires d <= |s.files|
  {
    forall i: nat | i < d :: Passes(exec, db, s, i)
  }

  /** A database that has these files on record besides. */
  function With<S>(exec: Exec<S>, db: Db<S>, fs: seq<File>): Db<S>
    requires Fold(exec, db.schema, fs).Some?
  {
    Db(true, db.applied + fs, Fold(exec, db.schema, fs).value)
  }

  lemma NextUnrecorded(applied: seq<File>, files: seq<File>, d: nat)
    requires d < |files|
    ensures Unrecorded(applied, files[..d + 1])
         == Unrecorded(applied, files[..d]) + if Recorded(applied, files[d].name) then [] else [files[d]]
  {
    assert files[..d + 1][..d] == files[..d];
  }

  lemma NextFold<S>(exec: Exec<S>, base: S, fs: seq<File>, f: File)
    ensures Fold(exec, base, fs + [f])
         == var before := Fold(exec, base, fs); if before.None? then None else exec(f.script, before.value)
  {
    assert (fs + [f])[..|fs|] == fs;
  }

  lemma {:induction false} FoldReached<S>(exec: Exec<S>, db: Db<S>, s: Boot, d: nat)
    requires d <= |s.files| && PassesUpTo(exec, db, s, d)
    ensures Fold(exec, db.schema, Unrecorded(db.applied, s.files[..d])).Some?
  {
    if d == 0 {
    } else {
      FoldReached(exec, db, s, d - 1);
      NextUnrecorded(db.applied, s.files, d - 1);
      assert Passes(exec, db, s, d - 1);
      var fs := Unrecorded(db.applied, s.files[..d - 1]);
      assert fs + [] == fs;
    }
  }

  /** Whether a file is on record does not change by the files before it. */
  lemma RecordedStays(applied: seq<File>, s: Boot, d: nat)
    requires d < |s.files|
    ensures s.files[d].name in Names(applied + Unrecorded(applied, s.files[..d]))
       <==> Recorded(applied, s.files[d].name)
  {
    var name, fs := s.files[d].name, Unrecorded(applied, s.files[..d]);
    if Recorded(applied, name) {
      var i :| 0 <= i < |applied| && applied[i].name == name;
      assert applied[i] in applied + fs;
    } else {
      forall g | g in applied + fs
        ensures g.name != name
      {
        UnrecordedExact(applied, s.files[..d], g);
      }
    }
  }

  /** One file, with the d files before it passed. */
  lemma HandledExactly<S>(exec: Exec<S>, db: Db<S>, s: Boot, d: nat)
    requires d < |s.files| && Fold(exec, db.schema, Unrecorded(db.applied, s.files[..d])).Some?
    ensures var fs, next := Unrecorded(db.applied, s.files[..d]), Unrecorded(db.applied, s.files[..d + 1]);
            Handled(exec, With(exec, db, fs), s.files[d], s.faults[d])
            == if (s.faults[d] == NoFault || s.faults[d] == AfterCommit) && Fold(exec, db.schema, next).Some?
               then (With(exec, db, next), Passes(exec, db, s, d))
               else (With(exec, db, fs), Passes(exec, db, s, d))
  {
    hide Names, Fold, Unrecorded, Recorded;
    var f, fs := s.files[d], Unrecorded(db.applied, s.files[..d]);
    RecordedStays(db.applied, s, d);
    NextUnrecorded(db.applied, s.files, d);
    if Recorded(db.applied, f.name) {
      assert fs + [] == fs;
    } else {
      NextFold(exec, db.schema, fs, f);
      assert (db.applied + fs) + [f] == db.applied + (fs + [f]);
    }
  }

  lemma {:induction false} MigratedFrom<S>(exec: Exec<S>, db: Db<S>, s: Boot, d: nat)
    requires d <= |s.files| && PassesUpTo(exec, db, s, d)
    ensures Fold(exec, db.schema, Unrecorded(db.applied, s.files[..d])).Some?
    ensures Migrated(exec, db.(ready := true), s.files, s.faults)
         == Migrated(exec, With(exec, db, Unrecorded(db.applied, s.files[..d])), s.files[d..], s.faults[d..])
  {
    FoldReached(exec, db, s, d);
    if d == 0 {
      assert s.files[0..] == s.files && s.faults[0..] == s.faults;
      assert db.applied + [] == db.applied;
    } else {
      var fs := Unrecorded(db.applied, s.files[..d - 1]);
      MigratedFrom(exec, db, s, d - 1);
      HandledExactly(exec, db, s, d - 1);
      UnfoldMigrated(exec, With(exec, db, fs), s, d - 1);
      assert Passes(exec, db, s, d - 1);
      NextUnrecorded(db.applied, s.files, d - 1);
      assert fs + [] == fs;
    }
  }

  /** How far a start gets. */
  lemma {:induction false} FirstStop<S>(exec: Exec<S>, db: Db<S>, s: Boot, from: nat) returns (d: nat)
    requires from <= |s.files| && PassesUpTo(exec, db, s, from)
    ensures d <= |s.files| && PassesUpTo(exec, db, s, d) && (d < |s.files| ==> !Passes(exec, db, s, d))
    decreases |s.files| - from
  {
    if from == |s.files| || !Passes(exec, db, s, from) {
      d := from;
    } else {
      d := FirstStop(exec, db, s, from + 1);
    }
  }

  /** Every start: it succeeds exactly when there are files, the bookkeeping table can be made and every file
      passes; the record then holds the old entries followed by the unrecorded files, in order, and the schema
      is the old one after their scripts. */
  lemma StartSucceedsExactly<S>(exec: Exec<S>, db: Db<S>, s: Boot)
    ensures Begun(exec, db, s).1 <==> s.files != [] && s.tableUp && PassesUpTo(exec, db, s, |s.files|)
    ensures Begun(exec, db, s).1 ==>
              Fold(exec, db.schema, Unrecorded(db.applied, s.files)) == Some(Begun(exec, db, s).0.schema)
              && Begun(exec, db, s).0.applied == db.applied + Unrecorded(db.applied, s.files)
    ensures s.files == [] || !s.tableUp ==> Begun(exec, db, s).0 == db
  {
    if s.files != [] && s.tableUp {
      var d := FirstStop(exec, db, s, 0);
      MigratedFrom(exec, db, s, d);
      if d < |s.files| {
        HandledExactly(exec, db, s, d);
        UnfoldMigrated(exec, With(exec, db, Unrecorded(db.applied, s.files[..d])), s, d);
      } else {
        assert s.files[..d] == s.files;
      }
    }
  }

  /** A start stopped at its d-th file keeps all unrecorded files before it, and that one too if only the crash
      came after its commit. */
  lemma StoppedStartKeeps<S>(exec: Exec<S>, db: Db<S>, s: Boot, d: nat)
    requires d < |s.files| && s.tableUp && PassesUpTo(exec, db, s, d) && !Passes(exec, db, s, d)
    ensures var all := Unrecorded(db.applied, s.files[..d + 1]);
            var kept := if s.faults[d] == AfterCommit && Fold(exec, db.schema, all).Some? then all
                        else Unrecorded(db.applied, s.files[..d]);
            && Begun(exec, db, s).0.applied == db.applied + kept
            && Fold(exec, db.schema, kept) == Some(Begun(exec, db, s).0.schema)
            && !Begun(exec, db, s).1
  {
    var fs := Unrecorded(db.applied, s.files[..d]);
    MigratedFrom(exec, db, s, d);
    HandledExactly(exec, db, s, d);
    UnfoldMigrated(exec, With(exec, db, fs), s, d);
    NextUnrecorded(db.applied, s.files, d);
    assert fs + [] == fs;
  }

  class Database<S(0)> {
    var db: Db<S>

    constructor (schema: S)
      ensures db == Db(false, [], schema)
    {
      db := Db(false, [], schema);
    }

    /** The transaction works on a copy; only the commit makes it durable. */
    method Migrate(exec: Exec<S>, s: Boot) returns (ok: bool)
      modifies this
      ensures (db, ok) == Begun(exec, old(db), s)
      ensures ok <==> s.files != [] && s.tableUp && PassesUpTo(exec, old(db), s, |s.files|)
      ensures ok ==> db.applied == old(db).applied + Unrecorded(old(db).applied, s.files)
                     && Some(db.schema) == Fold(exec, old(db).schema, Unrecorded(old(db).applied, s.files))
    {
      StartSucceedsExactly(exec, db, s);
      if |s.files| == 0 {
        return false;
      }
      if !s.tableUp {
        return false;
      }
      db := db.(ready := true);
      var i := 0;
      while i < |s.files|
        invariant 0 <= i <= |s.files|
        invariant Begun(exec, old(db), s) == Migrated(exec, db, s.files[i..], s.faults[i..])
      {
        var f, fault := s.files[i], s.faults[i];
        UnfoldMigrated(exec, db, s, i);
        if fault == AtCheck {
          return false;
        }
        var found := exists g :: g in db.applied && g.name == f.name;
        if found {
          i := i + 1;
          continue;
        }
        if fault == AtRead || fault == AtBegin {
          return false;
        }
        var tx := db;
        var after := exec(f.script, tx.schema);
        if fault == AtExec || after.None? {
          return false;
        }
        tx := tx.(schema := after.value);
        if fault == AtRecord {
          return false;
        }
        tx := tx.(applied := tx.applied + [f]);
        if fault == AtCommit {
          return false;
        }
        db := tx;
        if fault == AfterCommit {
          return false;
        }
        i := i + 1;
      }
      return true;
    }
  }

  // ---------------------------------------------------------------------------------------------
  // Exactly once
  // ---------------------------------------------------------------------------------------------

  /** The schema is the fold of what is recorded, and nothing is recorded twice. */
  ghost predicate Exact<S>(exec: Exec<S>, base: S, db: Db<S>) {
    && Fold(exec, base, db.applied) == Some(db.schema)
    && forall i, j | 0 <= i < j < |db.applied| :: db.applied[i].name != db.applied[j].name
  }

  lemma CommitExact<S>(exec: Exec<S>, base: S, db: Db<S>, f: File, schema: S)
    requires Exact(exec, base, db) && f.name !in Names(db.applied) && exec(f.script, db.schema) == Some(schema)
    ensures Exact(exec, base, db.(applied := db.applied + [f], schema := schema))
  {
    assert (db.applied + [f])[..|db.applied|] == db.applied;
    forall i | 0 <= i < |db.applied|
      ensures db.applied[i].name != f.name
    {
      assert db.applied[i] in db.applied;
    }
  }

  lemma {:induction false} MigratedExact<S>(exec: Exec<S>, base: S, db: Db<S>, files: seq<File>, faults: seq<Fault>)
    requires |files| == |faults| && Exact(exec, base, db)
    ensures var db' := Migrated(exec, db, files, faults).0;
            Exact(exec, base, db') && db.applied <= db'.applied
    decreases |files|
  {
    hide Exact;
    if files == [] {
    } else {
      var f := files[0];
      if f.name in Names(db.applied) {
        MigratedExact(exec, base, db, files[1..], faults[1..]);
      } else {
        var after := exec(f.script, db.schema);
        if after.Some? {
          var db' := db.(applied := db.applied + [f], schema := after.value);
          CommitExact(exec, base, db, f, after.value);
          MigratedExact(exec, base, db', files[1..], faults[1..]);
        }
      }
    }
  }

  function Starts<S>(exec: Exec<S>, base: S, starts: seq<Boot>): Db<S> {
    if starts == [] then Db(false, [], base)
    else Begun(exec, Starts(exec, base, starts[..|starts| - 1]), starts[|starts| - 1]).0
  }

  /** Over any sequence of starts, with any files and faults: the schema is the fold of the recorded
      scripts, none of them applied twice, and what is recorded stays recorded. */
  lemma {:induction false} ExactlyOnce<S>(exec: Exec<S>, base: S, starts: seq<Boot>)
    ensures Exact(exec, base, Starts(exec, base, starts))
    ensures starts != [] ==>
              Starts(exec, base, starts[..|starts| - 1]).applied <= Starts(exec, base, starts).applied
  {
    if starts == [] {
    } else {
      var n := |starts| - 1;
      ExactlyOnce(exec, base, starts[..n]);
      var db := Starts(exec, base, starts[..n]);
      MigratedExact(exec, base, db.(ready := true), starts[n].files, starts[n].faults);
    }
  }

  // ---------------------------------------------------------------------------------------------
  // In order, when new files only sort last
  // ---------------------------------------------------------------------------------------------

  /** New files sort after all earlier ones, and old files keep their contents. */
  ghost predicate OnlyAppended(starts: seq<Boot>) {
    forall i, j | 0 <= i < j < |starts| :: starts[i].files <= starts[j].files
  }

  lemma NotYetRecorded<S>(db: Db<S>, s: Boot, d: nat)
    requires d < |s.files| && db.applied == s.files[..d]
    ensures s.files[d].name !in Names(db.applied)
  {
    forall g | g in db.applied
      ensures g.name != s.files[d].name
    {
      var i :| 0 <= i < |db.applied| && db.applied[i] == g;
      assert s.files[i].name == g.name;
    }
  }

  lemma HandledPrefix<S>(exec: Exec<S>, db: Db<S>, s: Boot, d: nat)
    requires d < |s.files| && db.applied <= s.files && d <= |db.applied|
    ensures var (db', go) := Handled(exec, db, s.files[d], s.faults[d]);
            db'.applied <= s.files && (go ==> d < |db'.applied|)
  {
    if d < |db.applied| {
      assert db.applied[d] == s.files[d] && db.applied[d] in db.applied;
    } else {
      NotYetRecorded(db, s, d);
      assert db.applied + [s.files[d]] == s.files[..d + 1];
    }
  }

  /** With the first d files handled. */
  lemma {:induction false} MigratedPrefix<S>(exec: Exec<S>, db: Db<S>, s: Boot, d: nat)
    requires d <= |s.files|
    requires db.applied <= s.files && d <= |db.applied|
    ensures var (db', ok) := Migrated(exec, db, s.files[d..], s.faults[d..]);
            db'.applied <= s.files && (ok ==> db'.applied == s.files)
    decreases |s.files| - d
  {
    if d == |s.files| {
    } else {
      UnfoldMigrated(exec, db, s, d);
      HandledPrefix(exec, db, s, d);
      var (db', go) := Handled(exec, db, s.files[d], s.faults[d]);
      if go { MigratedPrefix(exec, db', s, d + 1); }
    }
  }

  /** If new files only sort last, the record is always a prefix of the sorted files, and all of them
      after a successful start. */
  lemma {:induction false} AppliedInOrder<S>(exec: Exec<S>, base: S, starts: seq<Boot>)
    requires starts != [] && OnlyAppended(starts)
    ensures var n := |starts| - 1;
            var db := Starts(exec, base, starts[..n]);
            && Starts(exec, base, starts).applied <= starts[n].files
            && (Begun(exec, db, starts[n]).1 ==> Starts(exec, base, starts).applied == starts[n].files)
  {
    var n := |starts| - 1;
    if n == 0 {
    } else {
      AppliedInOrder(exec, base, starts[..n]);
      assert starts[n - 1].files <= starts[n].files;
    }
    var db := Starts(exec, base, starts[..n]).(ready := true);
    MigratedPrefix(exec, db, starts[n], 0);
    assert starts[n].files[0..] == starts[n].files && starts[n].faults[0..] == starts[n].faults;
  }

  /** Running again over files that are all recorded changes nothing, whatever goes wrong, and succeeds
      when nothing does. */
  lemma {:induction false} RerunChangesNothing<S>(exec: Exec<S>, db: Db<S>, files: seq<File>, faults: seq<Fault>)
    requires |files| == |faults| && Names(files) <= Names(db.applied)
    ensures Migrated(exec, db, files, faults).0 == db
    ensures AtCheck !in faults ==> Migrated(exec, db, files, faults).1
    decreases |files|
  {
    if files == [] {
    } else {
      assert files[0] in files && faults[0] in faults;
      assert Names(files[1..]) <= Names(files);
      RerunChangesNothing(exec, db, files[1..], faults[1..]);
    }
  }

  lemma {:induction false} SuccessRecordsAll<S>(exec: Exec<S>, db: Db<S>, files: seq<File>, faults: seq<Fault>)
    requires |files| == |faults| && Migrated(exec, db, files, faults).1
    ensures Names(files) + Names(db.applied) <= Names(Migrated(exec, db, files, faults).0.applied)
    ensures Migrated(exec, db, files, faults).0.ready == db.ready
    decreases |files|
  {
    if files == [] {
    } else {
      var f := files[0];
      assert files == [f] + files[1..];
      assert Names(files) == {f.name} + Names(files[1..]);
      if f.name in Names(db.applied) {
        SuccessRecordsAll(exec, db, files[1..], faults[1..]);
      } else {
        var db' := db.(applied := db.applied + [f], schema := exec(f.script, db.schema).value);
        assert f in db'.applied && forall g | g in db.applied :: g in db'.applied;
        SuccessRecordsAll(exec, db', files[1..], faults[1..]);
      }
    }
  }

  /** A second start over the same files changes nothing, whatever goes wrong during it, and succeeds when
      nothing does. */
  lemma RerunAfterSuccess<S>(exec: Exec<S>, db: Db<S>, first: Boot, again: Boot)
    requires Begun(exec, db, first).1 && again.files == first.files
    ensures Begun(exec, Begun(exec, db, first).0, again).0 == Begun(exec, db, first).0
    ensures again.tableUp && AtCheck !in again.faults ==> Begun(exec, Begun(exec, db, first).0, again).1
  {
    SuccessRecordsAll(exec, db.(ready := true), first.files, first.faults);
    RerunChangesNothing(exec, Begun(exec, db, first).0, again.files, again.faults);
  }
}
