/** What the cache holds and serves, told by the run: every entry and every hit is the row of its id as its
    filler read it, and with no write pending an entry is stale exactly when that read was overtaken. */
module CacheHistory {
  import opened Wrappers
  import opened Documents
  import opened CacheCoherence

  // ---------------------------------------------------------------------------------------------
  // Positions in a run
  // ---------------------------------------------------------------------------------------------

  /** The state before the i-th step. */
  function At(s: State, steps: seq<Action>, i: nat): State
    requires i <= |steps|
  {
    var t := Run(s, steps[..i]);
    if t.Some? then t.value else s
  }

  lemma {:induction false} PrefixRuns(s: State, steps: seq<Action>, i: nat)
    requires Run(s, steps).Some? && i <= |steps|
    ensures Run(s, steps[..i]).Some?
    decreases |steps| - i
  {
    if i == |steps| {
      assert steps[..i] == steps;
    } else {
      PrefixRuns(s, steps, i + 1);
      assert steps[..i + 1][..i] == steps[..i];
    }
  }

  lemma AtStep(s: State, steps: seq<Action>, i: nat)
    requires Run(s, steps).Some? && i < |steps|
    ensures Enabled(At(s, steps, i), steps[i]) && At(s, steps, i + 1) == Apply(At(s, steps, i), steps[i])
  {
    PrefixRuns(s, steps, i + 1);
    assert steps[..i + 1][..i] == steps[..i];
  }

  lemma AtEnd(s: State, steps: seq<Action>)
    requires Run(s, steps).Some?
    ensures At(s, steps, |steps|) == Run(s, steps).value
  {
    assert steps[..|steps|] == steps;
  }

  /** Positions in the log are positions in the run. */
  lemma LogAt(s: State, steps: seq<Action>, i: nat)
    requires Run(s, steps).Some? && s.log == [] && i <= |steps|
    ensures |At(s, steps, i).log| == i && At(s, steps, i).ttl == s.ttl
  {
    PrefixRuns(s, steps, i);
    TtlFixed(s, steps[..i]);
  }

  // ---------------------------------------------------------------------------------------------
  // Where entries come from
  // ---------------------------------------------------------------------------------------------

  /** At step i reader r, having missed id, read its row and found doc. */
  ghost predicate ReadBy(s: State, steps: seq<Action>, r: nat, id: Id, doc: Document, i: nat) {
    && i < |steps| && steps[i] == ReadRow(r)
    && r in At(s, steps, i).readers && At(s, steps, i).readers[r] == Missed(id)
    && Current(At(s, steps, i), id, doc)
  }

  /** The entry is a row as some reader read it, set by the same reader, and dated honestly. */
  ghost predicate SetBy(s: State, steps: seq<Action>, id: Id, e: Entry) {
    && e.readStep < e.setStep < |steps| && steps[e.setStep].Fill?
    && ReadBy(s, steps, steps[e.setStep].r, id, e.doc, e.readStep)
    && e.setClock == At(s, steps, e.setStep).clock && e.expiresAt == e.setClock + s.ttl
  }

  /** As SetBy, before step n and not in the future of the clock. */
  ghost predicate SetBefore(s: State, steps: seq<Action>, id: Id, e: Entry, n: nat, clock: int) {
    SetBy(s, steps, id, e) && e.setStep < n && e.setClock <= clock
  }

  ghost predicate ReaderHistory(s: State, steps: seq<Action>, n: nat, clock: int, r: nat, k: Reader) {
    match k
    case Checking(id, e) => SetBefore(s, steps, id, e, n, clock)
    case Missed(_) => true
    case Holding(id, doc, readStep) => ReadBy(s, steps, r, id, doc, readStep) && readStep < n
  }

  ghost predicate HitHistory(s: State, steps: seq<Action>, n: nat, clock: int, h: Hit) {
    SetBefore(s, steps, h.id, h.e, n, h.at) && h.at <= h.e.expiresAt && h.at <= clock
  }

  ghost predicate History(s: State, steps: seq<Action>, n: nat, t: State) {
    && (forall id | id in t.items :: SetBefore(s, steps, id, t.items[id], n, t.clock))
    && (forall r | r in t.readers :: ReaderHistory(s, steps, n, t.clock, r, t.readers[r]))
    && (forall h | h in t.hits :: HitHistory(s, steps, n, t.clock, h))
  }

  // What one step does to an entry, a reader and the hits.

  ghost predicate ItemFrom(t: State, a: Action, t': State, id: Id)
    requires id in t'.items
  {
    || (id in t.items && t'.items[id] == t.items[id])
    || (a.Fill? && a.r in t.readers && t.readers[a.r].Holding? && t.readers[a.r].id == id
        && t'.items[id] == Entry(t.readers[a.r].doc, t.clock + t.ttl, t.readers[a.r].readStep, |t.log|, t.clock))
  }

  ghost predicate ReaderFrom(t: State, a: Action, t': State, r: nat)
    requires r in t'.readers
  {
    var k := t'.readers[r];
    || (r in t.readers && k == t.readers[r])
    || k.Missed?
    || (k.Checking? && k.id in t.items && k.e == t.items[k.id])
    || (k.Holding? && a == ReadRow(r) && r in t.readers && t.readers[r] == Missed(k.id) && Current(t, k.id, k.doc)
        && k.readStep == |t.log|)
  }

  ghost predicate HitFrom(t: State, a: Action, h: Hit) {
    || h in t.hits
    || (a.Check? && a.r in t.readers && t.readers[a.r] == Checking(h.id, h.e) && h.at == t.clock <= h.e.expiresAt)
  }

  lemma Sources(t: State, a: Action)
    requires Enabled(t, a)
    ensures var t' := Apply(t, a);
            && t.clock <= t'.clock
            && (forall id | id in t'.items :: ItemFrom(t, a, t', id))
            && (forall r | r in t'.readers :: ReaderFrom(t, a, t', r))
            && (forall h | h in t'.hits :: HitFrom(t, a, h))
  {
  }

  lemma ItemHistory(s: State, steps: seq<Action>, n: nat, t: State, t': State, id: Id)
    requires n < |steps| && t == At(s, steps, n) && History(s, steps, n, t) && |t.log| == n && t.ttl == s.ttl
    requires id in t'.items && ItemFrom(t, steps[n], t', id) && t.clock <= t'.clock
    ensures SetBefore(s, steps, id, t'.items[id], n + 1, t'.clock)
  {
    var a := steps[n];
    if id in t.items && t'.items[id] == t.items[id] {
      assert SetBefore(s, steps, id, t.items[id], n, t.clock);
    } else {
      assert ReaderHistory(s, steps, n, t.clock, a.r, t.readers[a.r]);
    }
  }

  lemma ReaderStep(s: State, steps: seq<Action>, n: nat, t: State, t': State, r: nat)
    requires n < |steps| && t == At(s, steps, n) && History(s, steps, n, t) && |t.log| == n
    requires r in t'.readers && ReaderFrom(t, steps[n], t', r) && t.clock <= t'.clock
    ensures ReaderHistory(s, steps, n + 1, t'.clock, r, t'.readers[r])
  {
    var k := t'.readers[r];
    if r in t.readers && k == t.readers[r] {
      assert ReaderHistory(s, steps, n, t.clock, r, k);
    } else if k.Checking? {
      assert SetBefore(s, steps, k.id, t.items[k.id], n, t.clock);
    }
  }

  lemma HitStep(s: State, steps: seq<Action>, n: nat, t: State, t': State, h: Hit)
    requires n < |steps| && History(s, steps, n, t) && HitFrom(t, steps[n], h) && t.clock <= t'.clock
    ensures HitHistory(s, steps, n + 1, t'.clock, h)
  {
    if h in t.hits {
      assert HitHistory(s, steps, n, t.clock, h);
    } else {
      assert ReaderHistory(s, steps, n, t.clock, steps[n].r, t.readers[steps[n].r]);
    }
  }

  lemma HistoryStep(s: State, steps: seq<Action>, n: nat, t: State, t': State)
    requires n < |steps| && t == At(s, steps, n) && History(s, steps, n, t) && |t.log| == n && t.ttl == s.ttl
    requires forall id | id in t'.items :: ItemFrom(t, steps[n], t', id)
    requires forall r | r in t'.readers :: ReaderFrom(t, steps[n], t', r)
    requires t.clock <= t'.clock && forall h | h in t'.hits :: HitFrom(t, steps[n], h)
    ensures History(s, steps, n + 1, t')
  {
    forall id | id in t'.items
      ensures SetBefore(s, steps, id, t'.items[id], n + 1, t'.clock)
    {
      ItemHistory(s, steps, n, t, t', id);
    }
    forall r | r in t'.readers
      ensures ReaderHistory(s, steps, n + 1, t'.clock, r, t'.readers[r])
    {
      ReaderStep(s, steps, n, t, t', r);
    }
    forall h | h in t'.hits
      ensures HitHistory(s, steps, n + 1, t'.clock, h)
    {
      HitStep(s, steps, n, t, t', h);
    }
  }

  lemma {:induction false} HistoryAt(s: State, steps: seq<Action>, n: nat)
    requires Run(s, steps).Some? && n <= |steps|
    requires s.log == [] && s.items == map[] && s.readers == map[] && s.hits == []
    ensures History(s, steps, n, At(s, steps, n))
  {
    if n == 0 {
      assert steps[..0] == [];
    } else {
      HistoryAt(s, steps, n - 1);
      AtStep(s, steps, n - 1);
      LogAt(s, steps, n - 1);
      Sources(At(s, steps, n - 1), steps[n - 1]);
      HistoryStep(s, steps, n - 1, At(s, steps, n - 1), At(s, steps, n));
    }
  }

  /** In every interleaving, each cached document is the row of its id in the state in which its filler read
      it, and the filler set it later. */
  lemma EntriesArePastRows(ttl: int, clock: int, rows: map<Id, Document>, steps: seq<Action>, id: Id)
    requires Run(Init(ttl, clock, rows), steps).Some?
    requires id in Run(Init(ttl, clock, rows), steps).value.items
    ensures SetBy(Init(ttl, clock, rows), steps, id, Run(Init(ttl, clock, rows), steps).value.items[id])
  {
    var s := Init(ttl, clock, rows);
    HistoryAt(s, steps, |steps|);
    AtEnd(s, steps);
  }

  /** Everything ever served from the cache is a row as its filler read it, set at most ttl before. */
  lemma HitsArePastRows(ttl: int, clock: int, rows: map<Id, Document>, steps: seq<Action>, i: nat)
    requires Run(Init(ttl, clock, rows), steps).Some?
    requires i < |Run(Init(ttl, clock, rows), steps).value.hits|
    ensures var h := Run(Init(ttl, clock, rows), steps).value.hits[i];
            SetBy(Init(ttl, clock, rows), steps, h.id, h.e) && h.e.setClock <= h.at <= h.e.setClock + ttl
  {
    var s := Init(ttl, clock, rows);
    HistoryAt(s, steps, |steps|);
    AtEnd(s, steps);
    assert Run(s, steps).value.hits[i] in Run(s, steps).value.hits;
  }

  // ---------------------------------------------------------------------------------------------
  // Exactly when an entry is stale
  // ---------------------------------------------------------------------------------------------

  lemma UsedAt(s: State, steps: seq<Action>, i: nat)
    requires Run(s, steps).Some? && i < |steps|
    ensures At(s, steps, i).used <= At(s, steps, i + 1).used
  {
    AtStep(s, steps, i);
  }

  lemma RowStep(s: State, a: Action, id: Id)
    requires Enabled(s, a) && id in s.used
    ensures a.Commit? && a.id == id ==> Lookup(Effect(s, a).rows, id) == a.row
    ensures !(a.Commit? && a.id == id) ==> Lookup(Effect(s, a).rows, id) == Lookup(s.rows, id)
  {
  }

  /** A row changes only by commits of its id. */
  lemma {:induction false} RowKept(s: State, steps: seq<Action>, i: nat, k: nat, id: Id)
    requires Run(s, steps).Some? && i <= k <= |steps| && id in At(s, steps, i).used
    requires forall c: nat | i <= c < k :: !CommitOf(steps, c, id)
    ensures Lookup(At(s, steps, k).rows, id) == Lookup(At(s, steps, i).rows, id) && id in At(s, steps, k).used
    decreases k
  {
    if i == k {
    } else {
      RowKept(s, steps, i, k - 1, id);
      AtStep(s, steps, k - 1);
      UsedAt(s, steps, k - 1);
      RowStep(At(s, steps, k - 1), steps[k - 1], id);
      assert !CommitOf(steps, k - 1, id);
    }
  }

  /** Either no write of id is pending, or none has committed since the entry was set. */
  ghost predicate SettledSince(steps: seq<Action>, n: nat, t: State) {
    forall id | id in t.items ::
      Uninvalidated(t, id) || forall c: nat | t.items[id].setStep < c < n :: !CommitOf(steps, c, id)
  }

  /** An entry that outlives the step still has its pending write, and a commit leaves one pending. */
  lemma PendingStep(t: State, a: Action, id: Id)
    requires Enabled(t, a) && id in Apply(t, a).items
    requires (Uninvalidated(t, id) && id in t.items) || (a.Commit? && a.id == id)
    ensures Uninvalidated(Apply(t, a), id)
  {
    var t' := Apply(t, a);
    if a.Commit? && a.id == id {
      assert t'.writers[a.w] == id;
    } else {
      var w :| w in t.writers && t.writers[w] == id;
      assert w in t'.writers && t'.writers[w] == id;
    }
  }

  lemma SettledStep(steps: seq<Action>, n: nat, t: State, t': State, id: Id)
    requires n < |steps| && SettledSince(steps, n, t) && |t.log| == n
    requires id in t'.items && ItemFrom(t, steps[n], t', id)
    requires (Uninvalidated(t, id) && id in t.items) || CommitOf(steps, n, id) ==> Uninvalidated(t', id)
    ensures Uninvalidated(t', id) || forall c: nat | t'.items[id].setStep < c < n + 1 :: !CommitOf(steps, c, id)
  {
  }

  lemma {:induction false} SettledAt(s: State, steps: seq<Action>, n: nat)
    requires Run(s, steps).Some? && n <= |steps| && s.log == [] && s.items == map[]
    ensures SettledSince(steps, n, At(s, steps, n))
  {
    if n == 0 {
      assert steps[..0] == [];
    } else {
      SettledAt(s, steps, n - 1);
      AtStep(s, steps, n - 1);
      LogAt(s, steps, n - 1);
      Sources(At(s, steps, n - 1), steps[n - 1]);
      forall id | id in At(s, steps, n).items
        ensures Uninvalidated(At(s, steps, n), id)
                || forall c: nat | At(s, steps, n).items[id].setStep < c < n :: !CommitOf(steps, c, id)
      {
        var t := At(s, steps, n - 1);
        if (Uninvalidated(t, id) && id in t.items) || CommitOf(steps, n - 1, id) { PendingStep(t, steps[n - 1], id); }
        SettledStep(steps, n - 1, t, At(s, steps, n), id);
      }
    }
  }

  /** The c-th step is the last commit on id before step k. */
  ghost predicate LastCommit(steps: seq<Action>, c: nat, id: Id, k: nat) {
    c < k && CommitOf(steps, c, id) && forall d: nat | c < d < k :: !CommitOf(steps, d, id)
  }

  lemma {:induction false} FindLastCommit(steps: seq<Action>, i: nat, id: Id, k: nat) returns (c: nat)
    requires i <= k && exists d: nat :: i <= d < k && CommitOf(steps, d, id)
    ensures i <= c && LastCommit(steps, c, id, k)
    decreases k
  {
    if CommitOf(steps, k - 1, id) {
      c := k - 1;
    } else {
      c := FindLastCommit(steps, i, id, k - 1);
    }
  }

  /** What the row of id is before step k: as the last commit after step i left it. */
  lemma RowAfterCommit(s: State, steps: seq<Action>, c: nat, id: Id, k: nat)
    requires Run(s, steps).Some? && k <= |steps| && LastCommit(steps, c, id, k) && id in At(s, steps, c).used
    ensures Lookup(At(s, steps, k).rows, id) == steps[c].row
  {
    AtStep(s, steps, c);
    UsedAt(s, steps, c);
    RowStep(At(s, steps, c), steps[c], id);
    RowKept(s, steps, c + 1, k, id);
  }

  lemma {:induction false} UsedUpTo(s: State, steps: seq<Action>, i: nat, k: nat)
    requires Run(s, steps).Some? && i <= k <= |steps|
    ensures At(s, steps, i).used <= At(s, steps, k).used
    decreases k
  {
    if i == k {
    } else {
      UsedUpTo(s, steps, i, k - 1);
      UsedAt(s, steps, k - 1);
    }
  }

  /** The last commit on id between the entry's read and its Set left the row different. */
  ghost predicate Overwritten(steps: seq<Action>, id: Id, e: Entry, c: nat) {
    e.readStep < c && LastCommit(steps, c, id, e.setStep) && steps[c].row != Some(e.doc)
  }

  lemma RowAtSet(s: State, steps: seq<Action>, id: Id, e: Entry)
    requires Run(s, steps).Some? && SetBy(s, steps, id, e) && id in At(s, steps, e.readStep).used
    ensures Lookup(At(s, steps, e.setStep).rows, id) != Some(e.doc) <==> exists c: nat :: Overwritten(steps, id, e, c)
    ensures id in At(s, steps, e.setStep).used
  {
    UsedUpTo(s, steps, e.readStep, e.setStep);
    assert !CommitOf(steps, e.readStep, id);
    forall c: nat | e.readStep < c && LastCommit(steps, c, id, e.setStep)
      ensures Lookup(At(s, steps, e.setStep).rows, id) == steps[c].row
    {
      UsedUpTo(s, steps, e.readStep, c);
      RowAfterCommit(s, steps, c, id, e.setStep);
    }
    if exists d: nat :: e.readStep + 1 <= d < e.setStep && CommitOf(steps, d, id) {
      var c := FindLastCommit(steps, e.readStep + 1, id, e.setStep);
      assert Overwritten(steps, id, e, c) <==> steps[c].row != Some(e.doc);
    } else {
      RowKept(s, steps, e.readStep, e.setStep, id);
    }
  }

  /** With no write of its id pending, a cached document differs from its row if and only if the last commit
      between its filler's read and its Set left a different row. */
  lemma StaleExactly(ttl: int, clock: int, rows: map<Id, Document>, steps: seq<Action>, id: Id)
    requires Run(Init(ttl, clock, rows), steps).Some?
    requires id in Run(Init(ttl, clock, rows), steps).value.items
    requires !Uninvalidated(Run(Init(ttl, clock, rows), steps).value, id)
    ensures var t := Run(Init(ttl, clock, rows), steps).value;
            !Current(t, id, t.items[id].doc) <==> exists c: nat :: Overwritten(steps, id, t.items[id], c)
  {
    var s := Init(ttl, clock, rows);
    var t := Run(s, steps).value;
    var e := t.items[id];
    EntriesArePastRows(ttl, clock, rows, steps, id);
    SettledAt(s, steps, |steps|);
    AtEnd(s, steps);
    PrefixRuns(s, steps, e.readStep);
    CacheCoherence.RunKeepsInv(s, steps[..e.readStep]);
    RowAtSet(s, steps, id, e);
    assert !CommitOf(steps, e.setStep, id);
    RowKept(s, steps, e.setStep, |steps|, id);
  }
}
