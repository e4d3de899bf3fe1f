/** Cache coherence when the steps of reads and writes interleave.

    A Get looks its id up, checks the entry's age, and on a miss reads the row and later fills the cache.
    A write commits to the table and later invalidates the cache. The log holds the run so far; a step is
    identified by its position in it. */
module CacheCoherence {
  import opened Wrappers
  import opened Documents

  type Id = string

  /** A cache entry, with the steps at which its filler read the row and set the entry. */
  datatype Entry = Entry(doc: Document, expiresAt: int, readStep: nat, setStep: nat, setClock: int)

  datatype Reader = Checking(id: Id, e: Entry) | Missed(id: Id) | Holding(id: Id, doc: Document, readStep: nat)

  datatype Action =
    | Tick(now: int)
    | Look(r: nat, id: Id) | Check(r: nat) | ReadRow(r: nat) | ReadFails(r: nat) | Fill(r: nat)
    | Insert(doc: Document) | Commit(w: nat, id: Id, row: Option<Document>) | Invalidate(w: nat)
    | Sweep

  /** An answer given from the cache. */
  datatype Hit = Hit(id: Id, e: Entry, at: int)

  datatype State = State(
    ttl: int, clock: int, rows: map<Id, Document>, used: set<Id>, items: map<Id, Entry>,
    readers: map<nat, Reader>, writers: map<nat, Id>, hits: seq<Hit>, log: seq<Action>)

  function Init(ttl: int, clock: int, rows: map<Id, Document>): State {
    State(ttl, clock, rows, rows.Keys, map[], map[], map[], [], [])
  }

  predicate Enabled(s: State, a: Action) {
    match a
    case Tick(now) => now >= s.clock
    case Look(r, _) => r !in s.readers
    case Check(r) => r in s.readers && s.readers[r].Checking?
    case ReadRow(r) => r in s.readers && s.readers[r].Missed?
    case ReadFails(r) => r in s.readers && s.readers[r].Missed?
    case Fill(r) => r in s.readers && s.readers[r].Holding?
    case Insert(d) => d.id !in s.used
    case Commit(w, id, row) => w !in s.writers && id in s.rows
    case Invalidate(w) => w in s.writers
    case Sweep => true
  }

  function Effect(s: State, a: Action): State
    requires Enabled(s, a)
  {
    match a
    case Tick(now) => s.(clock := now)
    case Look(r, id) => s.(readers := s.readers[r := if id in s.items then Checking(id, s.items[id]) else Missed(id)])
    case Check(r) =>
      var k := s.readers[r];
      if s.clock > k.e.expiresAt then s.(readers := s.readers[r := Missed(k.id)])
      else s.(readers := s.readers - {r}, hits := s.hits + [Hit(k.id, k.e, s.clock)])
    case ReadRow(r) =>
      var id := s.readers[r].id;
      if id in s.rows then s.(readers := s.readers[r := Holding(id, s.rows[id], |s.log|)])
      else s.(readers := s.readers - {r})
    case ReadFails(r) => s.(readers := s.readers - {r})
    case Fill(r) =>
      var k := s.readers[r];
      s.(items := s.items[k.id := Entry(k.doc, s.clock + s.ttl, k.readStep, |s.log|, s.clock)],
         readers := s.readers - {r})
    case Insert(d) => s.(rows := s.rows[d.id := d], used := s.used + {d.id})
    case Commit(w, id, row) =>
      s.(rows := if row.Some? then s.rows[id := row.value] else s.rows - {id}, writers := s.writers[w := id])
    case Invalidate(w) => s.(items := s.items - {s.writers[w]}, writers := s.writers - {w})
    case Sweep => s.(items := map k | k in s.items && !(s.clock > s.items[k].expiresAt) :: s.items[k])
  }

  function Apply(s: State, a: Action): State
    requires Enabled(s, a)
  {
    Effect(s, a).(log := s.log + [a])
  }

  function Run(s: State, steps: seq<Action>): Option<State> {
    if steps == [] then Some(s)
    else
      var t := Run(s, steps[..|steps| - 1]);
      if t.Some? && Enabled(t.value, steps[|steps| - 1]) then Some(Apply(t.value, steps[|steps| - 1])) else None
  }

  // ---------------------------------------------------------------------------------------------
  // Why an entry may differ from its row
  // ---------------------------------------------------------------------------------------------

  predicate CommitOf(log: seq<Action>, i: nat, id: Id) {
    i < |log| && log[i].Commit? && log[i].id == id
  }

  /** Some commit on id came after step i. */
  ghost predicate CommittedAfter(log: seq<Action>, id: Id, i: nat) {
    exists c | i < c < |log| :: CommitOf(log, c, id)
  }

  /** The filler read the row before a commit on id that came before its Set. */
  ghost predicate Overtaken(log: seq<Action>, id: Id, e: Entry) {
    exists c | e.readStep < c < e.setStep :: CommitOf(log, c, id)
  }

  /** A write of id has committed and not yet invalidated. */
  ghost predicate Uninvalidated(s: State, id: Id) {
    exists w :: w in s.writers && s.writers[w] == id
  }

  predicate Current(s: State, id: Id, d: Document) {
    id in s.rows && s.rows[id] == d
  }

  ghost predicate EntryInv(s: State) {
    forall id | id in s.items ::
      var e := s.items[id];
      && id in s.used && e.setStep <= |s.log| && e.expiresAt == e.setClock + s.ttl && e.setClock <= s.clock
      && (Current(s, id, e.doc) || Uninvalidated(s, id) || Overtaken(s.log, id, e))
  }

  ghost predicate ReaderInv(s: State) {
    forall r | r in s.readers && s.readers[r].Holding? :: HolderInv(s, s.readers[r])
  }

  ghost predicate HolderInv(s: State, k: Reader)
    requires k.Holding?
  {
    k.id in s.used && k.readStep < |s.log| && (Current(s, k.id, k.doc) || CommittedAfter(s.log, k.id, k.readStep))
  }

  ghost predicate HitInv(s: State) {
    && s.rows.Keys <= s.used
    && (forall r | r in s.readers && s.readers[r].Checking? ::
          s.readers[r].e.expiresAt == s.readers[r].e.setClock + s.ttl)
    && forall i | 0 <= i < |s.hits| :: s.hits[i].at <= s.hits[i].e.setClock + s.ttl
  }

  ghost predicate Inv(s: State) {
    EntryInv(s) && ReaderInv(s) && HitInv(s)
  }

  lemma LogGrows(log: seq<Action>, a: Action, id: Id, e: Entry, i: nat)
    ensures CommittedAfter(log, id, i) ==> CommittedAfter(log + [a], id, i)
    ensures Overtaken(log, id, e) ==> Overtaken(log + [a], id, e)
    ensures a.Commit? && a.id == id && i < |log| ==> CommittedAfter(log + [a], id, i)
  {
    if CommittedAfter(log, id, i) {
      var c :| i < c < |log| && CommitOf(log, c, id);
      assert CommitOf(log + [a], c, id);
    }
    if Overtaken(log, id, e) {
      var c :| e.readStep < c < e.setStep && CommitOf(log, c, id);
      assert CommitOf(log + [a], c, id);
    }
    if a.Commit? && a.id == id && i < |log| {
      assert CommitOf(log + [a], |log|, id);
    }
  }

  lemma EntryStep(s: State, a: Action, id: Id)
    requires Inv(s) && Enabled(s, a) && id in s.items && id in Apply(s, a).items
    requires a.Fill? ==> s.readers[a.r].id != id
    ensures var t := Apply(s, a);
            t.items[id] == s.items[id]
            && (Current(t, id, t.items[id].doc) || Uninvalidated(t, id) || Overtaken(t.log, id, t.items[id]))
  {
    var t, e := Apply(s, a), s.items[id];
    LogGrows(s.log, a, id, e, 0);
    if a.Commit? && a.id == id {
      assert t.writers[a.w] == id;
    } else if Uninvalidated(s, id) {
      var w :| w in s.writers && s.writers[w] == id;
      assert w in t.writers && t.writers[w] == id;
    }
  }

  lemma FillStep(s: State, r: nat)
    requires Inv(s) && Enabled(s, Fill(r))
    ensures var t, id := Apply(s, Fill(r)), s.readers[r].id;
            Current(t, id, t.items[id].doc) || Overtaken(t.log, id, t.items[id])
  {
    var t, k := Apply(s, Fill(r)), s.readers[r];
    if !Current(s, k.id, k.doc) {
      var c :| k.readStep < c < |s.log| && CommitOf(s.log, c, k.id);
      assert CommitOf(t.log, c, k.id);
    }
  }

  lemma EntriesStep(s: State, a: Action)
    requires Inv(s) && Enabled(s, a)
    ensures EntryInv(Apply(s, a))
  {
    var t := Apply(s, a);
    forall id | id in t.items
      ensures Current(t, id, t.items[id].doc) || Uninvalidated(t, id) || Overtaken(t.log, id, t.items[id])
    {
      if a.Fill? && s.readers[a.r].id == id { FillStep(s, a.r); } else { EntryStep(s, a, id); }
    }
  }

  lemma HolderStep(s: State, a: Action, k: Reader)
    requires Inv(s) && Enabled(s, a) && k.Holding? && HolderInv(s, k)
    ensures HolderInv(Apply(s, a), k)
  {
    LogGrows(s.log, a, k.id, Entry(k.doc, 0, 0, 0, 0), k.readStep);
  }

  lemma ReadersStep(s: State, a: Action)
    requires Inv(s) && Enabled(s, a)
    ensures ReaderInv(Apply(s, a))
  {
    var t := Apply(s, a);
    forall r | r in t.readers && t.readers[r].Holding?
      ensures HolderInv(t, t.readers[r])
    {
      if r in s.readers && s.readers[r].Holding? {
        HolderStep(s, a, s.readers[r]);
      }
    }
  }

  lemma HitsStep(s: State, a: Action)
    requires EntryInv(s) && HitInv(s) && Enabled(s, a)
    ensures HitInv(Apply(s, a))
  {
  }

  lemma {:induction false} RunKeepsInv(s: State, steps: seq<Action>)
    requires Inv(s) && Run(s, steps).Some?
    ensures Inv(Run(s, steps).value)
  {
    if steps == [] {
    } else {
      var n := |steps| - 1;
      RunKeepsInv(s, steps[..n]);
      var t := Run(s, steps[..n]).value;
      EntriesStep(t, steps[n]);
      ReadersStep(t, steps[n]);
      HitsStep(t, steps[n]);
    }
  }

  /** In every interleaving, an entry that differs from its row is explained: a write of that id has
      committed but not yet invalidated, or the entry's filler read the row before a commit on that id
      that preceded its Set. */
  lemma StaleEntriesExplained(ttl: int, clock: int, rows: map<Id, Document>, steps: seq<Action>, id: Id)
    requires Run(Init(ttl, clock, rows), steps).Some?
    requires id in Run(Init(ttl, clock, rows), steps).value.items
    ensures var s := Run(Init(ttl, clock, rows), steps).value;
            var e := s.items[id];
            Current(s, id, e.doc) || Uninvalidated(s, id) || Overtaken(s.log, id, e)
  {
    RunKeepsInv(Init(ttl, clock, rows), steps);
  }

  /** Whatever is served from the cache was set at most ttl before. */
  lemma HitsAreRecent(ttl: int, clock: int, rows: map<Id, Document>, steps: seq<Action>, i: nat)
    requires Run(Init(ttl, clock, rows), steps).Some?
    requires i < |Run(Init(ttl, clock, rows), steps).value.hits|
    ensures var h := Run(Init(ttl, clock, rows), steps).value.hits[i]; h.at <= h.e.setClock + ttl
  {
    RunKeepsInv(Init(ttl, clock, rows), steps);
    TtlFixed(Init(ttl, clock, rows), steps);
  }

  lemma TtlStep(s: State, a: Action)
    requires Enabled(s, a)
    ensures Apply(s, a).ttl == s.ttl && Apply(s, a).log == s.log + [a]
  {
  }

  lemma {:induction false} TtlFixed(s: State, steps: seq<Action>)
    requires Run(s, steps).Some?
    ensures Run(s, steps).value.ttl == s.ttl
    ensures Run(s, steps).value.log == s.log + steps
  {
    if steps == [] {
    } else {
      var n := |steps| - 1;
      TtlFixed(s, steps[..n]);
      TtlStep(Run(s, steps[..n]).value, steps[n]);
      assert s.log + steps == (s.log + steps[..n]) + [steps[n]];
    }
  }

  /** The log is the run: positions in it are positions in the sequence of steps. */
  lemma LogIsRun(ttl: int, clock: int, rows: map<Id, Document>, steps: seq<Action>)
    requires Run(Init(ttl, clock, rows), steps).Some?
    ensures Run(Init(ttl, clock, rows), steps).value.log == steps
  {
    TtlFixed(Init(ttl, clock, rows), steps);
  }

  lemma RunThen(s: State, steps: seq<Action>, a: Action)
    requires Run(s, steps).Some? && Enabled(Run(s, steps).value, a)
    ensures Run(s, steps + [a]) == Some(Apply(Run(s, steps).value, a))
  {
    assert (steps + [a])[..|steps|] == steps;
  }

  /** An undisturbed lookup serves the cached entry exactly up to its expiry; past it, it is a miss. */
  lemma LookupExact(s: State, r: nat, id: Id)
    requires r !in s.readers && id in s.items
    ensures var e, t := s.items[id], Run(s, [Look(r, id), Check(r)]);
            && t.Some?
            && (s.clock <= e.expiresAt ==> t.value.hits == s.hits + [Hit(id, e, s.clock)] && r !in t.value.readers)
            && (s.clock > e.expiresAt ==> t.value.hits == s.hits && r in t.value.readers
                                          && t.value.readers[r] == Missed(id))
  {
    RunThen(s, [], Look(r, id));
    RunThen(s, [] + [Look(r, id)], Check(r));
    assert [] + [Look(r, id)] + [Check(r)] == [Look(r, id), Check(r)];
  }

  /** A miss reads the row and caches it from then on for the time to live. */
  lemma FillExact(s: State, r: nat)
    requires r in s.readers && s.readers[r].Missed? && s.readers[r].id in s.rows
    ensures var id, t := s.readers[r].id, Run(s, [ReadRow(r), Fill(r)]);
            && t.Some? && id in t.value.items && t.value.items[id].doc == s.rows[id]
            && t.value.items[id].expiresAt == s.clock + s.ttl && t.value.items - {id} == s.items - {id}
            && t.value.rows == s.rows
  {
    RunThen(s, [], ReadRow(r));
    RunThen(s, [] + [ReadRow(r)], Fill(r));
    assert [] + [ReadRow(r)] + [Fill(r)] == [ReadRow(r), Fill(r)];
  }

  /** A sweep removes exactly the entries past their expiry. */
  lemma SweepExact(s: State)
    ensures Apply(s, Sweep).items == map k | k in s.items && s.clock <= s.items[k].expiresAt :: s.items[k]
  {
  }

  /** The second explanation is needed: a slow reader leaves a stale entry with every write invalidated. */
  lemma SlowReaderLeavesStaleEntry(ttl: int, clock: int, old': Document, new': Document) returns (steps: seq<Action>)
    requires ttl >= 0 && old'.id == new'.id && old' != new'
    ensures var rows := map[old'.id := old'];
            Run(Init(ttl, clock, rows), steps).Some?
            && var s := Run(Init(ttl, clock, rows), steps).value;
            old'.id in s.items && s.clock <= s.items[old'.id].expiresAt && s.writers == map[]
            && !Current(s, old'.id, s.items[old'.id].doc)
  {
    var id, s := old'.id, Init(ttl, clock, map[old'.id := old']);
    RunThen(s, [], Look(0, id));
    steps := [] + [Look(0, id)];
    RunThen(s, steps, ReadRow(0));
    steps := steps + [ReadRow(0)];
    RunThen(s, steps, Commit(0, id, Some(new')));
    steps := steps + [Commit(0, id, Some(new'))];
    RunThen(s, steps, Invalidate(0));
    steps := steps + [Invalidate(0)];
    RunThen(s, steps, Fill(0));
    steps := steps + [Fill(0)];
  }
}
