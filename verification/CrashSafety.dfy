/** Files and rows when uploads and deletions interleave, fail and crash at any step.

    An upload stages a file, syncs it, renames it into place and then inserts its row; a deletion removes
    the row and then the file. A rename is atomic and generated names are never reused. */
module CrashSafety {
  import opened Basics
  import opened Wrappers

  datatype Op =
    | Staging(name: string)               // the staging file exists, its content incomplete
    | Synced(name: string)
    | Stored(name: string, big: bool)     // renamed into place; big if over the size limit
    | Undoing(name: string)               // no row will come: the blob is to be removed again
    | Found(id: string, path: string)     // a deletion has read its row
    | Unlinking(name: string)             // its row is gone, the blob is to be removed

  datatype State = State(
    rows: map<string, string>,     // document id to FilePath
    files: map<string, bool>,      // file name to whether its content is complete
    ops: map<nat, Op>,
    names: set<string>,            // every file name ever generated
    ids: set<string>,              // every document id ever generated
    crashed: nat,                  // operations cut short by a crash
    failedDeletes: nat,            // file removals that failed
    lost: set<string>)             // the names those two left behind

  datatype Action =
    | Begin(o: nat, name: string) | Sync(o: nat) | SaveFails(o: nat, removed: bool)
    | Rename(o: nat, path: string, big: bool)
    | Insert(o: nat, id: string) | InsertFails(o: nat) | Reject(o: nat) | Remove(o: nat, removed: bool)
    | Find(o: nat, id: string) | DropRow(o: nat) | DropRowFails(o: nat)
    | Crash

  predicate Enabled(s: State, a: Action) {
    match a
    case Begin(o, name) => o !in s.ops && name !in s.names
    case Sync(o) => o in s.ops && s.ops[o].Staging?
    case SaveFails(o, _) => o in s.ops && (s.ops[o].Staging? || s.ops[o].Synced?)
    case Rename(o, path, _) => o in s.ops && s.ops[o].Synced? && s.ops[o].name in s.files && path !in s.names
    case Insert(o, id) => o in s.ops && s.ops[o].Stored? && !s.ops[o].big && id !in s.ids
    case InsertFails(o) => o in s.ops && s.ops[o].Stored? && !s.ops[o].big
    case Reject(o) => o in s.ops && s.ops[o].Stored? && s.ops[o].big
    case Remove(o, _) => o in s.ops && (s.ops[o].Undoing? || s.ops[o].Unlinking?)
    case Find(o, id) => o !in s.ops && id in s.rows
    case DropRow(o) => o in s.ops && s.ops[o].Found?
    case DropRowFails(o) => o in s.ops && s.ops[o].Found?
    case Crash => true
  }

  function Owned(ops: map<nat, Op>): set<string> {
    set o | o in ops && !ops[o].Found? :: ops[o].name
  }

  /** The removal of op o's file, which ends the operation. */
  function Removal(s: State, o: nat, removed: bool): State
    requires o in s.ops && !s.ops[o].Found?
  {
    var name := s.ops[o].name;
    if removed then s.(files := s.files - {name}, ops := s.ops - {o})
    else s.(ops := s.ops - {o}, failedDeletes := s.failedDeletes + 1, lost := s.lost + {name})
  }

  function Apply(s: State, a: Action): State
    requires Enabled(s, a)
  {
    match a
    case Begin(o, name) =>
      s.(files := s.files[name := false], ops := s.ops[o := Staging(name)], names := s.names + {name})
    case Sync(o) =>
      var name := s.ops[o].name;
      s.(files := s.files[name := true], ops := s.ops[o := Synced(name)])
    case SaveFails(o, removed) => Removal(s, o, removed)
    case Rename(o, path, big) =>
      var name := s.ops[o].name;
      s.(files := s.files[path := s.files[name]] - {name},
         ops := s.ops[o := Stored(path, big)], names := s.names + {path})
    case Insert(o, id) =>
      s.(rows := s.rows[id := s.ops[o].name], ops := s.ops - {o}, ids := s.ids + {id})
    case InsertFails(o) => s.(ops := s.ops[o := Undoing(s.ops[o].name)])
    case Reject(o) => s.(ops := s.ops[o := Undoing(s.ops[o].name)])
    case Remove(o, removed) => Removal(s, o, removed)
    case Find(o, id) => s.(ops := s.ops[o := Found(id, s.rows[id])])
    case DropRow(o) =>
      var d := s.ops[o];
      if d.id in s.rows then s.(rows := s.rows - {d.id}, ops := s.ops[o := Unlinking(d.path)])
      else s.(ops := s.ops - {o})
    case DropRowFails(o) => s.(ops := s.ops - {o})
    case Crash => s.(ops := map[], crashed := s.crashed + |s.ops|, lost := s.lost + Owned(s.ops))
  }

  function Run(s: State, steps: seq<Action>): Option<State> {
    if steps == [] then Some(s)
    else
      var t := Run(s, steps[..|steps| - 1]);
      if t.Some? && Enabled(t.value, steps[|steps| - 1]) then Some(Apply(t.value, steps[|steps| - 1])) else None
  }

  const EMPTY := State(map[], map[], map[], {}, {}, 0, 0, {})

  // ---------------------------------------------------------------------------------------------
  // The invariant
  // ---------------------------------------------------------------------------------------------

  /** Every row's file is stored whole. */
  ghost predicate RowsWhole(s: State) {
    forall id | id in s.rows :: s.rows[id] in s.files && s.files[s.rows[id]]
  }

  ghost predicate RowsApart(s: State) {
    forall i, j | i in s.rows && j in s.rows && i != j :: s.rows[i] != s.rows[j]
  }

  ghost predicate NamesInv(s: State) {
    && s.rows.Keys <= s.ids && s.rows.Values <= s.names && s.files.Keys <= s.names && s.lost <= s.names
    && (forall id | id in s.rows :: s.rows[id] !in s.lost)
  }

  /** No operation owns a lost file. */
  ghost predicate OwnersKnown(s: State) {
    forall o | o in s.ops && !s.ops[o].Found? :: s.ops[o].name in s.names && s.ops[o].name !in s.lost
  }

  /** No two operations share a file. */
  ghost predicate OwnersApart(s: State) {
    forall o, p | o in s.ops && p in s.ops && o != p && !s.ops[o].Found? && !s.ops[p].Found? ::
      s.ops[o].name != s.ops[p].name
  }

  /** No operation owns a row's file. */
  ghost predicate RowsUnowned(s: State) {
    forall o, id | o in s.ops && !s.ops[o].Found? && id in s.rows :: s.ops[o].name != s.rows[id]
  }

  /** An upload's file exists, and once synced it is whole. */
  ghost predicate UploadsInv(s: State) {
    forall o | o in s.ops && (s.ops[o].Staging? || s.ops[o].Synced? || s.ops[o].Stored?) ::
      s.ops[o].name in s.files && (s.ops[o].Staging? || s.files[s.ops[o].name])
  }

  /** A deletion still knows its row's path. */
  ghost predicate FoundInv(s: State) {
    forall o | o in s.ops && s.ops[o].Found? ::
      s.ops[o].id in s.ids && (s.ops[o].id in s.rows ==> s.rows[s.ops[o].id] == s.ops[o].path)
  }

  /** Each file belongs to a row, to an operation, or to the lost. */
  ghost predicate Accounted(s: State, f: string) {
    f in s.rows.Values || f in Owned(s.ops) || f in s.lost
  }

  ghost predicate FilesAccounted(s: State) {
    forall f | f in s.files :: Accounted(s, f)
  }

  ghost predicate Inv(s: State) {
    && RowsWhole(s) && RowsApart(s) && NamesInv(s) && OwnersKnown(s) && OwnersApart(s) && RowsUnowned(s)
    && UploadsInv(s) && FoundInv(s)
    && FilesAccounted(s) && |s.lost| <= s.crashed + s.failedDeletes
  }

  lemma RowWhole(s: State, a: Action, id: string)
    requires RowsWhole(s) && NamesInv(s) && RowsUnowned(s) && UploadsInv(s)
    requires Enabled(s, a) && id in Apply(s, a).rows
    ensures var t := Apply(s, a); t.rows[id] in t.files && t.files[t.rows[id]]
  {
    if id in s.rows {
      assert s.rows[id] in s.files && s.files[s.rows[id]];
    }
  }

  lemma RowsStep(s: State, a: Action)
    requires Inv(s) && Enabled(s, a)
    ensures RowsWhole(Apply(s, a))
  {
    forall id | id in Apply(s, a).rows
      ensures Apply(s, a).rows[id] in Apply(s, a).files && Apply(s, a).files[Apply(s, a).rows[id]]
    {
      RowWhole(s, a, id);
    }
  }

  lemma RowsApartStep(s: State, a: Action)
    requires RowsApart(s) && RowsUnowned(s) && NamesInv(s) && Enabled(s, a)
    ensures RowsApart(Apply(s, a))
  {
  }

  lemma NamesStep(s: State, a: Action)
    requires NamesInv(s) && OwnersKnown(s) && RowsUnowned(s) && UploadsInv(s) && Enabled(s, a)
    ensures NamesInv(Apply(s, a))
  {
  }

  lemma KnownStep(s: State, a: Action)
    requires NamesInv(s) && OwnersKnown(s) && OwnersApart(s) && FoundInv(s) && Enabled(s, a)
    ensures OwnersKnown(Apply(s, a))
  {
  }

  lemma ApartStep(s: State, a: Action)
    requires NamesInv(s) && OwnersKnown(s) && OwnersApart(s) && RowsUnowned(s) && FoundInv(s) && Enabled(s, a)
    ensures OwnersApart(Apply(s, a))
  {
  }

  lemma UnownedStep(s: State, a: Action)
    requires NamesInv(s) && RowsApart(s) && OwnersApart(s) && RowsUnowned(s) && FoundInv(s) && Enabled(s, a)
    ensures RowsUnowned(Apply(s, a))
  {
  }

  lemma OwnUploadStep(s: State, a: Action)
    requires UploadsInv(s) && OwnersKnown(s) && Enabled(s, a) && !a.Crash?
    requires var t := Apply(s, a); a.o in t.ops && (t.ops[a.o].Staging? || t.ops[a.o].Synced? || t.ops[a.o].Stored?)
    ensures var t := Apply(s, a); t.ops[a.o].name in t.files && (t.ops[a.o].Staging? || t.files[t.ops[a.o].name])
  {
  }

  lemma OtherUploadStep(s: State, a: Action, o: nat)
    requires OwnersApart(s) && OwnersKnown(s) && Enabled(s, a) && !a.Crash? && a.o != o
    requires o in s.ops && !s.ops[o].Found? && s.ops[o].name in s.files
    ensures var t := Apply(s, a);
            o in t.ops && t.ops[o] == s.ops[o] && t.ops[o].name in t.files
            && t.files[t.ops[o].name] == s.files[s.ops[o].name]
  {
  }

  lemma UploadStep(s: State, a: Action, o: nat)
    requires Inv(s) && Enabled(s, a)
    requires var t := Apply(s, a); o in t.ops && (t.ops[o].Staging? || t.ops[o].Synced? || t.ops[o].Stored?)
    ensures var t := Apply(s, a); t.ops[o].name in t.files && (t.ops[o].Staging? || t.files[t.ops[o].name])
  {
    if a.o == o {
      OwnUploadStep(s, a);
    } else {
      assert o in s.ops && Apply(s, a).ops[o] == s.ops[o];
      OtherUploadStep(s, a, o);
    }
  }

  lemma UploadsStep(s: State, a: Action)
    requires Inv(s) && Enabled(s, a)
    ensures UploadsInv(Apply(s, a))
  {
    var t := Apply(s, a);
    forall o | o in t.ops && (t.ops[o].Staging? || t.ops[o].Synced? || t.ops[o].Stored?)
      ensures t.ops[o].name in t.files && (t.ops[o].Staging? || t.files[t.ops[o].name])
    {
      UploadStep(s, a, o);
    }
  }

  lemma FoundStep(s: State, a: Action)
    requires FoundInv(s) && NamesInv(s) && Enabled(s, a)
    ensures FoundInv(Apply(s, a))
  {
  }

  lemma InOwned(ops: map<nat, Op>, o: nat)
    requires o in ops && !ops[o].Found?
    ensures ops[o].name in Owned(ops)
  {
  }

  lemma NewFileStep(s: State, a: Action, f: string)
    requires UploadsInv(s) && Enabled(s, a) && f in Apply(s, a).files && f !in s.files
    ensures Accounted(Apply(s, a), f)
  {
    InOwned(Apply(s, a).ops, a.o);
  }

  lemma RowFileStep(s: State, a: Action, f: string)
    requires NamesInv(s) && FoundInv(s) && Enabled(s, a) && f in Apply(s, a).files && f in s.rows.Values
    ensures Accounted(Apply(s, a), f)
  {
    var t := Apply(s, a);
    var id :| id in s.rows && s.rows[id] == f;
    if id in t.rows {
      assert t.rows[id] == f;
    } else {
      InOwned(t.ops, a.o);
    }
  }

  lemma OwnedFileStep(s: State, a: Action, f: string)
    requires Enabled(s, a) && f in Apply(s, a).files && f in Owned(s.ops)
    ensures Accounted(Apply(s, a), f)
  {
    var t := Apply(s, a);
    var o :| o in s.ops && !s.ops[o].Found? && s.ops[o].name == f;
    if !a.Crash? {
      if a.o != o {
        assert t.ops[o] == s.ops[o];
        InOwned(t.ops, o);
      } else if a.Insert? {
        assert t.rows[a.id] == f;
      } else if o in t.ops {
        InOwned(t.ops, o);
      }
    }
  }

  lemma FileStep(s: State, a: Action, f: string)
    requires Inv(s) && Enabled(s, a) && f in Apply(s, a).files
    ensures Accounted(Apply(s, a), f)
  {
    if f !in s.files {
      NewFileStep(s, a, f);
    } else if f in s.rows.Values {
      RowFileStep(s, a, f);
    } else if f in Owned(s.ops) {
      OwnedFileStep(s, a, f);
    }
  }

  lemma FilesStep(s: State, a: Action)
    requires Inv(s) && Enabled(s, a)
    ensures FilesAccounted(Apply(s, a))
  {
    forall f | f in Apply(s, a).files
      ensures Accounted(Apply(s, a), f)
    {
      FileStep(s, a, f);
    }
  }

  lemma {:induction false} OwnedSize(ops: map<nat, Op>)
    ensures |Owned(ops)| <= |ops|
  {
    if ops == map[] {
    } else {
      var o :| o in ops;
      var rest := ops - {o};
      OwnedSize(rest);
      var own := if ops[o].Found? then {} else {ops[o].name};
      forall n | n in Owned(ops)
        ensures n in Owned(rest) + own
      {
        var p :| p in ops && !ops[p].Found? && ops[p].name == n;
        assert p == o || p in rest;
      }
      SubsetSize(Owned(ops), Owned(rest) + own);
    }
  }

  lemma UnionSize(a: set<string>, b: set<string>)
    ensures |a + b| <= |a| + |b|
  {
    assert |a + b| + |a * b| == |a| + |b|;
  }

  lemma LostStep(s: State, a: Action)
    requires Inv(s) && Enabled(s, a)
    ensures var t := Apply(s, a); |t.lost| <= t.crashed + t.failedDeletes
  {
    if a.Crash? {
      OwnedSize(s.ops);
      UnionSize(s.lost, Owned(s.ops));
    }
  }

  lemma {:induction false} RunKeepsInv(s: State, steps: seq<Action>)
    requires Inv(s) && Run(s, steps).Some?
    ensures Inv(Run(s, steps).value)
  {
    if steps == [] {
    } else {
      var n := |steps| - 1;
      RunKeepsInv(s, steps[..n]);
      StepInv(Run(s, steps[..n]).value, steps[n]);
    }
  }

  lemma StepInv(s: State, a: Action)
    requires Inv(s) && Enabled(s, a)
    ensures Inv(Apply(s, a))
  {
    hide Apply;
    RowsStep(s, a);
    RowsApartStep(s, a);
    NamesStep(s, a);
    KnownStep(s, a);
    ApartStep(s, a);
    UnownedStep(s, a);
    UploadsStep(s, a);
    FoundStep(s, a);
    FilesStep(s, a);
    LostStep(s, a);
  }

  /** Files no row refers to. */
  function Orphans(s: State): set<string> {
    set f | f in s.files && f !in s.rows.Values
  }

  /** In every interleaving, with failures and crashes at any step: every row names a completely stored
      file, no two rows share one, and orphans number at most the operations in flight or crashed plus
      the failed removals. */
  lemma CrashSafe(steps: seq<Action>)
    requires Run(EMPTY, steps).Some?
    ensures var s := Run(EMPTY, steps).value;
            && (forall id | id in s.rows :: s.rows[id] in s.files && s.files[s.rows[id]])
            && (forall i, j | i in s.rows && j in s.rows && i != j :: s.rows[i] != s.rows[j])
            && |Orphans(s)| <= |s.ops| + s.crashed + s.failedDeletes
  {
    RunKeepsInv(EMPTY, steps);
    var s := Run(EMPTY, steps).value;
    OwnedSize(s.ops);
    UnionSize(Owned(s.ops), s.lost);
    SubsetSize(Orphans(s), Owned(s.ops) + s.lost);
  }

  lemma RunThen(s: State, steps: seq<Action>, a: Action)
    requires Run(s, steps).Some? && Enabled(Run(s, steps).value, a)
    ensures Run(s, steps + [a]) == Some(Apply(Run(s, steps).value, a))
  {
    assert (steps + [a])[..|steps|] == steps;
  }

  /** What the steps of an operation that nothing disturbs do. */
  lemma StepDoes(s: State, a: Action)
    requires Enabled(s, a)
    ensures a.Begin? ==>
              Apply(s, a) == s.(files := s.files[a.name := false], ops := s.ops[a.o := Staging(a.name)],
                                names := s.names + {a.name})
    ensures a.Sync? ==> var name := s.ops[a.o].name;
              Apply(s, a) == s.(files := s.files[name := true], ops := s.ops[a.o := Synced(name)])
    ensures a.Rename? ==> var name := s.ops[a.o].name;
              Apply(s, a) == s.(files := s.files[a.path := s.files[name]] - {name},
                                ops := s.ops[a.o := Stored(a.path, a.big)], names := s.names + {a.path})
    ensures a.Insert? ==>
              Apply(s, a) == s.(rows := s.rows[a.id := s.ops[a.o].name], ops := s.ops - {a.o}, ids := s.ids + {a.id})
    ensures a.Find? ==> Apply(s, a) == s.(ops := s.ops[a.o := Found(a.id, s.rows[a.id])])
    ensures a.DropRow? && s.ops[a.o].id in s.rows ==> var d := s.ops[a.o];
              Apply(s, a) == s.(rows := s.rows - {d.id}, ops := s.ops[a.o := Unlinking(d.path)])
    ensures a.Remove? && a.removed ==>
              Apply(s, a) == s.(files := s.files - {s.ops[a.o].name}, ops := s.ops - {a.o})
  {
  }

  lemma NoSteps(s: State)
    ensures Run(s, []) == Some(s)
  {
  }

  lemma UploadStages(s: State, o: nat, name: string, path: string) returns (steps: seq<Action>)
    requires o !in s.ops && name !in s.files && name !in s.names && path !in s.names && path != name
    ensures steps == [Begin(o, name), Sync(o), Rename(o, path, false)]
    ensures Run(s, steps) == Some(s.(files := s.files[path := true], ops := s.ops[o := Stored(path, false)],
                                     names := s.names + {name, path}))
  {
    hide Apply, Run;
    NoSteps(s);
    RunThen(s, [], Begin(o, name));
    StepDoes(s, Begin(o, name));
    var s1 := s.(files := s.files[name := false], ops := s.ops[o := Staging(name)], names := s.names + {name});
    steps := [] + [Begin(o, name)];
    RunThen(s, steps, Sync(o));
    StepDoes(s1, Sync(o));
    var s2 := s1.(files := s1.files[name := true], ops := s1.ops[o := Synced(name)]);
    steps := steps + [Sync(o)];
    RunThen(s, steps, Rename(o, path, false));
    StepDoes(s2, Rename(o, path, false));
    steps := steps + [Rename(o, path, false)];
    assert s2.files[path := true] - {name} == s.files[path := true];
    assert s2.ops[o := Stored(path, false)] == s.ops[o := Stored(path, false)];
    assert s2.names + {path} == s.names + {name, path};
  }

  /** An undisturbed upload within the limit ends with one row more, naming its whole file. */
  lemma UploadCompletes(s: State, o: nat, name: string, path: string, id: string)
    requires Inv(s) && o !in s.ops && name !in s.names && path !in s.names && path != name && id !in s.ids
    ensures Run(s, [Begin(o, name), Sync(o), Rename(o, path, false), Insert(o, id)])
         == Some(s.(rows := s.rows[id := path], files := s.files[path := true],
                    names := s.names + {name, path}, ids := s.ids + {id}))
  {
    hide Apply, Run;
    var steps := UploadStages(s, o, name, path);
    var t := Run(s, steps).value;
    RunThen(s, steps, Insert(o, id));
    StepDoes(t, Insert(o, id));
    assert steps + [Insert(o, id)] == [Begin(o, name), Sync(o), Rename(o, path, false), Insert(o, id)];
    assert t.ops - {o} == s.ops;
  }

  /** An undisturbed deletion ends without the row and without its file. */
  lemma DeletionCompletes(s: State, o: nat, id: string)
    requires o !in s.ops && id in s.rows
    ensures Run(s, [Find(o, id), DropRow(o), Remove(o, true)])
         == Some(s.(rows := s.rows - {id}, files := s.files - {s.rows[id]}))
  {
    hide Apply, Run;
    var path := s.rows[id];
    NoSteps(s);
    RunThen(s, [], Find(o, id));
    StepDoes(s, Find(o, id));
    var steps := [] + [Find(o, id)];
    RunThen(s, steps, DropRow(o));
    StepDoes(s.(ops := s.ops[o := Found(id, path)]), DropRow(o));
    steps := steps + [DropRow(o)];
    var s2 := s.(rows := s.rows - {id}, ops := s.ops[o := Found(id, path)][o := Unlinking(path)]);
    RunThen(s, steps, Remove(o, true));
    StepDoes(s2, Remove(o, true));
    assert steps + [Remove(o, true)] == [Find(o, id), DropRow(o), Remove(o, true)];
    assert s2.ops - {o} == s.ops;
  }
}
