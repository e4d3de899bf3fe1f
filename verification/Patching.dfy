/** Edits in the middle of everything else: when a PATCH replaces exactly the fields it names.

    A PATCH reads the row, and later writes both text columns: the fields it names as given, the others as
    it read them. What happens in between decides whether that is what it means to do. */
module Patching {
  import opened Wrappers
  import opened Paging
  import opened Requeue
  import opened Documents
  import opened DocumentTable
  import opened Lifecycle

  /** What a PATCH means to do: replace the fields it names in the row as it is now. */
  function Intended(d: Document, title: Option<string>, summary: Option<string>, now: int): Document {
    d.(title := Or(title, d.title), summary := Or(summary, d.summary), updatedAt := Seconds(now))
  }

  /** A single write does what it means to exactly when the fields it does not name are still as read. */
  lemma PatchFaithfulExactly(s: State, e: nat, title: Option<string>, summary: Option<string>, now: int)
    requires e in s.edits && s.edits[e].id in s.rows
    ensures var id, seen, row := s.edits[e].id, s.edits[e].seen, s.rows[s.edits[e].id];
            Apply(s, Write(e, title, summary, now)).rows[id] == Intended(row, title, summary, now)
            <==> (title.None? ==> seen.title == row.title) && (summary.None? ==> seen.summary == row.summary)
  {
    var id, seen, row := s.edits[e].id, s.edits[e].seen, s.rows[s.edits[e].id];
    var written := Apply(s, Write(e, title, summary, now)).rows[id];
    assert written.title == Or(title, seen.title) && written.summary == Or(summary, seen.summary);
  }

  // ---------------------------------------------------------------------------------------------
  // Positions in a run
  // ---------------------------------------------------------------------------------------------

  /** The state before the i-th step. */
  ghost function At(s: State, steps: seq<Action>, i: nat): State
    requires i <= |steps|
  {
    var t := Run(s, steps[..i]);
    if t.Some? then t.value else s
  }

  lemma {:induction false} PrefixRuns(s: State, steps: seq<Action>, i: nat)
    requires Run(s, steps).Some? && i <= |steps|
    ensures Run(s, steps[..i]).Some?
    decreases |steps| - i
  {
    if i == |steps| {
      assert steps[..i] == steps;
    } else {
      PrefixRuns(s, steps, i + 1);
      assert steps[..i + 1][..i] == steps[..i];
    }
  }

  lemma AtStep(s: State, steps: seq<Action>, i: nat)
    requires Run(s, steps).Some? && i < |steps|
    ensures Enabled(At(s, steps, i), steps[i]) && At(s, steps, i + 1) == Apply(At(s, steps, i), steps[i])
  {
    PrefixRuns(s, steps, i + 1);
    assert steps[..i + 1][..i] == steps[..i];
  }

  lemma AtInv(s: State, steps: seq<Action>, i: nat)
    requires Inv(s) && Run(s, steps).Some? && i <= |steps|
    ensures Inv(At(s, steps, i))
  {
    PrefixRuns(s, steps, i);
    RunKeepsInv(s, steps[..i]);
  }

  // ---------------------------------------------------------------------------------------------
  // A PATCH in a run
  // ---------------------------------------------------------------------------------------------

  /** The step is the write of a PATCH of id. */
  ghost predicate WritesTo(s: State, a: Action, id: string) {
    a.Write? && a.e in s.edits && s.edits[a.e].id == id
  }

  /** The k-th step, a write, does what its PATCH means to do to the row it finds. */
  ghost predicate Faithful(s: State, steps: seq<Action>, k: nat)
    requires k < |steps| && steps[k].Write?
  {
    var t, t', a := At(s, steps, k), At(s, steps, k + 1), steps[k];
    a.e in t.edits && t.edits[a.e].id in t.rows ==>
      var id := t.edits[a.e].id;
      id in t'.rows && t'.rows[id] == Intended(t.rows[id], a.title, a.summary, a.now)
  }

  lemma EditStep(s: State, a: Action, e: nat)
    requires Enabled(s, a) && e in s.edits && !(a.Write? && a.e == e)
    ensures e in Apply(s, a).edits && Apply(s, a).edits[e] == s.edits[e]
  {
  }

  /** Until it writes, a PATCH holds the row as it read it. */
  lemma {:induction false} EditKept(s: State, steps: seq<Action>, j: nat, k: nat, e: nat, id: string)
    requires Run(s, steps).Some? && j < k <= |steps| && steps[j] == ReadForEdit(e, id)
    requires forall m | j < m < k :: !(steps[m].Write? && steps[m].e == e && WritesTo(At(s, steps, m), steps[m], id))
    ensures id in At(s, steps, j).rows
    ensures e in At(s, steps, k).edits && At(s, steps, k).edits[e] == Edit(id, At(s, steps, j).rows[id])
    decreases k
  {
    var n := k - 1;
    AtStep(s, steps, n);
    if j == n {
    } else {
      EditKept(s, steps, j, n, e, id);
      EditStep(At(s, steps, n), steps[n], e);
    }
  }

  lemma {:induction false} UsedKept(s: State, steps: seq<Action>, j: nat, k: nat)
    requires Run(s, steps).Some? && j <= k <= |steps|
    ensures At(s, steps, j).used <= At(s, steps, k).used
    decreases k
  {
    if j == k {
    } else {
      UsedKept(s, steps, j, k - 1);
      AtStep(s, steps, k - 1);
      Lifecycle.UsedKept(At(s, steps, k - 1), steps[k - 1]);
    }
  }

  /** Only a write of a PATCH of id changes its text, and no id comes back after a removal. */
  lemma TextStep(s: State, a: Action, id: string)
    requires s.rows.Keys <= s.used && Enabled(s, a) && id in s.used && id in Apply(s, a).rows && !WritesTo(s, a, id)
    ensures id in s.rows
    ensures Apply(s, a).rows[id].title == s.rows[id].title && Apply(s, a).rows[id].summary == s.rows[id].summary
  {
    NoReturn(s, a, id);
    if !a.Write? { DisjointColumns(s, a, id); }
  }

  lemma NoReturn(s: State, a: Action, id: string)
    requires Enabled(s, a) && id in s.used && id in Apply(s, a).rows
    ensures id in s.rows
  {
    RowFrom(s, a, id);
  }

  lemma {:induction false} TextKept(s: State, steps: seq<Action>, j: nat, k: nat, id: string)
    requires Inv(s) && Run(s, steps).Some? && j <= k <= |steps|
    requires id in At(s, steps, j).used && id in At(s, steps, k).rows
    requires forall m | j <= m < k :: !WritesTo(At(s, steps, m), steps[m], id)
    ensures var before, after := At(s, steps, j).rows, At(s, steps, k).rows;
            id in before && after[id].title == before[id].title && after[id].summary == before[id].summary
    decreases k
  {
    if j == k {
    } else {
      var n := k - 1;
      AtStep(s, steps, n);
      AtInv(s, steps, n);
      UsedKept(s, steps, j, n);
      TextStep(At(s, steps, n), steps[n], id);
      TextKept(s, steps, j, n, id);
    }
  }

  /** A PATCH that reads at step j and writes at step k is faithful exactly when each field it does not
      name has at step k the value it had at step j. */
  lemma FaithfulInRunExactly(s: State, steps: seq<Action>, j: nat, k: nat, e: nat, id: string)
    requires Run(s, steps).Some? && j < k < |steps| && steps[j] == ReadForEdit(e, id)
    requires steps[k].Write? && steps[k].e == e && forall m | j < m < k :: !(steps[m].Write? && steps[m].e == e)
    requires id in At(s, steps, k).rows
    ensures id in At(s, steps, j).rows
    ensures var read, now, a := At(s, steps, j).rows[id], At(s, steps, k).rows[id], steps[k];
            Faithful(s, steps, k)
            <==> (a.title.None? ==> read.title == now.title) && (a.summary.None? ==> read.summary == now.summary)
  {
    var a := steps[k];
    EditKept(s, steps, j, k, e, id);
    AtStep(s, steps, k);
    PatchFaithfulExactly(At(s, steps, k), e, a.title, a.summary, a.now);
  }

  /** A PATCH during which no other PATCH of the same document writes replaces exactly the fields it names,
      whatever scan, worker, upload, removal and shutdown steps come in between. */
  lemma UndisturbedPatchFaithful(s: State, steps: seq<Action>, j: nat, k: nat, e: nat, id: string)
    requires Init(s) && Run(s, steps).Some? && j < k < |steps|
    requires steps[j] == ReadForEdit(e, id) && steps[k].Write? && steps[k].e == e
    requires forall m | j < m < k :: !WritesTo(At(s, steps, m), steps[m], id)
    requires id in At(s, steps, k).rows
    ensures Faithful(s, steps, k) && WritesTo(At(s, steps, k), steps[k], id)
  {
    assert Inv(s);
    AtStep(s, steps, j);
    AtInv(s, steps, j);
    EditKept(s, steps, j, k, e, id);
    TextKept(s, steps, j, k, id);
    AtStep(s, steps, k);
    PatchFaithfulExactly(At(s, steps, k), e, steps[k].title, steps[k].summary, steps[k].now);
  }

  // ---------------------------------------------------------------------------------------------
  // Which PATCHes are faithful in every run
  // ---------------------------------------------------------------------------------------------

  /** Two overlapping PATCHes of one document, naming different fields: the first edit is lost. */
  lemma OverlappingPatchesLoseOne(s: State, id: string, title: string, summary: string, now: int)
    requires id in s.rows && s.edits == map[] && title != s.rows[id].title
    ensures var steps := [ReadForEdit(0, id), ReadForEdit(1, id), Write(0, Some(title), None, now),
                          Write(1, None, Some(summary), now)];
            && Run(s, steps).Some? && id in Run(s, steps).value.rows
            && var row := Run(s, steps).value.rows[id];
            row.summary == summary && row.title == s.rows[id].title != title
  {
    var e := Edit(id, s.rows[id]);
    RunThen(s, [], ReadForEdit(0, id));
    var steps := [] + [ReadForEdit(0, id)];
    RunThen(s, steps, ReadForEdit(1, id));
    steps := steps + [ReadForEdit(1, id)];
    assert Run(s, steps) == Some(s.(edits := map[0 := e, 1 := e]));
    RunThen(s, steps, Write(0, Some(title), None, now));
    steps := steps + [Write(0, Some(title), None, now)];
    RunThen(s, steps, Write(1, None, Some(summary), now));
    steps := steps + [Write(1, None, Some(summary), now)];
    assert steps == [ReadForEdit(0, id), ReadForEdit(1, id), Write(0, Some(title), None, now),
                     Write(1, None, Some(summary), now)];
  }

  const START := State(1, map[], {}, Scanning(0), [], false, map[], map[], map[], {}, false)

  const DRAFT := Document("id", "old", "old", "file", "path", "text/plain", 0, "sum", Pending, "user", 0, 0)

  /** The scan finds nothing, a document is uploaded, two PATCHes read it, and the first writes both fields. */
  const RIVALS: seq<Action> := [ListPage, EndPage, Insert(0, DRAFT), ReadForEdit(0, "id"), ReadForEdit(1, "id"),
                                Write(0, Some("new"), Some("new"), 0)]

  lemma UploadedAndServing()
    ensures var row := Stored(DRAFT);
            Run(START, RIVALS[..3]) == Some(State(1, map["id" := row], {"id"}, Serving, [], false, map[],
                                                  map[0 := "id"], map[], {}, false))
  {
    assert PendingKeys(START.rows) == {};
    PageDistinct({}, 0);
    RunThen(START, [], ListPage);
    RunThen(START, [] + [ListPage], EndPage);
    RunThen(START, [] + [ListPage] + [EndPage], Insert(0, DRAFT));
    assert RIVALS[..3] == [] + [ListPage] + [EndPage] + [Insert(0, DRAFT)];
  }

  lemma RivalWrites()
    ensures Run(START, RIVALS).Some?
    ensures var t := Run(START, RIVALS).value;
            && "id" in t.rows && t.rows["id"].title == "new" && t.rows["id"].summary == "new"
            && 1 in t.edits && t.edits[1] == Edit("id", Stored(DRAFT))
  {
    UploadedAndServing();
    RunThen(START, RIVALS[..3], RIVALS[3]);
    assert RIVALS[..3] + [RIVALS[3]] == RIVALS[..4];
    RunThen(START, RIVALS[..4], RIVALS[4]);
    assert RIVALS[..4] + [RIVALS[4]] == RIVALS[..5];
    RunThen(START, RIVALS[..5], RIVALS[5]);
    assert RIVALS[..5] + [RIVALS[5]] == RIVALS;
  }

  lemma PartialPatchMayFail(title: Option<string>, summary: Option<string>)
    requires title.None? || summary.None?
    ensures var steps := RIVALS + [Write(1, title, summary, 0)];
            Run(START, steps).Some? && !Faithful(START, steps, |RIVALS|)
  {
    var a := Write(1, title, summary, 0);
    var steps := RIVALS + [a];
    RivalWrites();
    RunThen(START, RIVALS, a);
    AtStep(START, steps, |RIVALS|);
    assert steps[..|RIVALS|] == RIVALS && steps[..|RIVALS| + 1] == steps;
    PatchFaithfulExactly(At(START, steps, |RIVALS|), 1, title, summary, 0);
  }

  lemma FullPatchFaithful(s: State, steps: seq<Action>, k: nat)
    requires Run(s, steps).Some? && k < |steps| && steps[k].Write? && steps[k].title.Some? && steps[k].summary.Some?
    ensures Faithful(s, steps, k)
  {
    var t, a := At(s, steps, k), steps[k];
    AtStep(s, steps, k);
    if t.edits[a.e].id in t.rows {
      PatchFaithfulExactly(t, a.e, a.title, a.summary, a.now);
    }
  }

  /** A run whose k-th step writes a PATCH of the given fields. */
  ghost predicate PatchedAt(s: State, steps: seq<Action>, k: nat, title: Option<string>, summary: Option<string>) {
    Init(s) && Run(s, steps).Some? && k < |steps| && steps[k].Write? && steps[k].title == title
    && steps[k].summary == summary
  }

  /** A PATCH is faithful in every run exactly when it names both fields. */
  lemma AlwaysFaithfulExactly(title: Option<string>, summary: Option<string>)
    ensures (forall s: State, steps: seq<Action>, k: nat | PatchedAt(s, steps, k, title, summary) ::
               Faithful(s, steps, k))
            <==> title.Some? && summary.Some?
  {
    if title.Some? && summary.Some? {
      forall s: State, steps: seq<Action>, k: nat | PatchedAt(s, steps, k, title, summary)
        ensures Faithful(s, steps, k)
      {
        FullPatchFaithful(s, steps, k);
      }
    } else {
      var steps := RIVALS + [Write(1, title, summary, 0)];
      PartialPatchMayFail(title, summary);
      assert PatchedAt(START, steps, |RIVALS|, title, summary);
    }
  }
}
