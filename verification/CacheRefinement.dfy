/** The cache is invisible to whole operations: every run of the service answers as it would without one. */
module CacheRefinement {
  import opened Wrappers
  import opened Documents
  import opened DocumentTable
  import opened TtlCache
  import opened DocumentService

  /** The id column is the primary key. */
  ghost predicate WellFormed(t: Table) {
    forall id | id in t :: t[id].id == id
  }

  /** Every cached document, expired or not, is the current row. */
  ghost predicate Coherent(s: State) {
    WellFormed(s.table) && forall k | k in s.items :: k in s.table && s.items[k].val == s.table[k]
  }

  function ServedRun(s: State, calls: seq<Call>): State {
    if calls == [] then s else Served(ServedRun(s, calls[..|calls| - 1]), calls[|calls| - 1]).0
  }

  /** The answer to the i-th call of the run. */
  function ServedAnswer(s: State, calls: seq<Call>, i: nat): Answer
    requires i < |calls|
  {
    Served(ServedRun(s, calls[..i]), calls[i]).1
  }

  function DirectRun(t: Table, maxSize: int, calls: seq<Call>): Table {
    if calls == [] then t else Direct(DirectRun(t, maxSize, calls[..|calls| - 1]), calls[|calls| - 1], maxSize).0
  }

  function DirectAnswer(t: Table, maxSize: int, calls: seq<Call>, i: nat): Answer
    requires i < |calls|
  {
    Direct(DirectRun(t, maxSize, calls[..i]), calls[i], maxSize).1
  }

  /** A call changes no existing row but the one it invalidates. */
  lemma RowsKept(t: Table, c: Call, maxSize: int)
    requires WellFormed(t)
    ensures var (t', a) := Direct(t, c, maxSize);
            WellFormed(t') && forall k | k in t && !(Invalidates(c, a) && k == c.id) :: k in t' && t'[k] == t[k]
  {
    match c
    case Create(_, _, _, _) =>
    case Update(_, _, _, _, _, _, _) =>
    case Delete(_, _, _, _) =>
    case MarkStatus(_, _, _, _) =>
    case _ =>
  }

  lemma GetCoherent(s: State, c: Call)
    requires Coherent(s) && c.Get?
    ensures Coherent(ServedGet(s, c).0) && ServedGet(s, c).0.table == s.table
  {
  }

  lemma CoherentStep(s: State, c: Call)
    requires Coherent(s)
    ensures Coherent(Served(s, c).0)
    ensures Served(s, c).0.table == Direct(s.table, c, s.maxSize).0 && Served(s, c).0.maxSize == s.maxSize
  {
    if c.Get? {
      GetCoherent(s, c);
    } else if !c.Janitor? {
      RowsKept(s.table, c, s.maxSize);
    }
  }

  /** An answer differs from the uncached one exactly when a hit stands in for a failing read; it is then
      what that read would have found. */
  lemma AnswerStep(s: State, c: Call)
    requires Coherent(s)
    ensures var served, direct := Served(s, c).1, Direct(s.table, c, s.maxSize).1;
            && (served != direct <==> c.Get? && !c.up && Peek(s.items, c.id, c.now).Some?)
            && (served != direct ==> c.id in s.table && served == One(Visible(Ok(s.table[c.id]), c.owner)))
  {
    if c.Get? && Peek(s.items, c.id, c.now).Some? {
      assert s.items[c.id].val == s.table[c.id];
      assert Visible(Ok(s.table[c.id]), c.owner) != Err(Internal);
    }
  }

  /** Over every sequence of calls, clock readings, janitor sweeps and failing statements: the cache stays
      coherent and the table is the one the service without a cache would have. */
  lemma {:induction false} CacheStaysCoherent(s: State, calls: seq<Call>)
    requires Coherent(s)
    ensures var s' := ServedRun(s, calls);
            Coherent(s') && s'.table == DirectRun(s.table, s.maxSize, calls) && s'.maxSize == s.maxSize
  {
    if calls == [] {
    } else {
      var n := |calls| - 1;
      CacheStaysCoherent(s, calls[..n]);
      CoherentStep(ServedRun(s, calls[..n]), calls[n]);
    }
  }

  /** Over every run, an answer differs from the one given without a cache exactly when the call is a Get
      whose read would fail and whose document the cache still holds; it is then the current document. */
  lemma CacheInvisible(s: State, calls: seq<Call>, i: nat)
    requires Coherent(s) && i < |calls|
    ensures var served, direct := ServedAnswer(s, calls, i), DirectAnswer(s.table, s.maxSize, calls, i);
            var t, c := DirectRun(s.table, s.maxSize, calls[..i]), calls[i];
            && (served != direct
                <==> c.Get? && !c.up && Peek(ServedRun(s, calls[..i]).items, c.id, c.now).Some?)
            && (served != direct ==> c.id in t && served == One(Visible(Ok(t[c.id]), c.owner)))
  {
    CacheStaysCoherent(s, calls[..i]);
    AnswerStep(ServedRun(s, calls[..i]), calls[i]);
  }

  /** If no read of a Get fails, every answer of the run is the one given without a cache. */
  lemma CacheInvisibleWhileUp(s: State, calls: seq<Call>, i: nat)
    requires Coherent(s) && i < |calls| && forall c | c in calls && c.Get? :: c.up
    ensures ServedAnswer(s, calls, i) == DirectAnswer(s.table, s.maxSize, calls, i)
  {
    assert calls[i] in calls;
    CacheInvisible(s, calls, i);
  }

  /** The exception is real: after one Get, a second one is answered although its read would fail. */
  lemma HitOutlivesDatabase(s: State, id: string, owner: string, now: int)
    requires Coherent(s) && id in s.table && s.items == map[] && s.ttl >= 0
    ensures var calls := [Get(id, owner, now, now, true), Get(id, owner, now, now, false)];
            && ServedAnswer(s, calls, 1) == One(Visible(Ok(s.table[id]), owner))
            && DirectAnswer(s.table, s.maxSize, calls, 1) == One(Err(Internal))
  {
    var calls := [Get(id, owner, now, now, true), Get(id, owner, now, now, false)];
    assert calls[..1] == [calls[0]] && calls[..1][..0] == [];
    assert ServedRun(s, calls[..1]) == s.(items := map[id := Entry(s.table[id], now + s.ttl)]);
  }
}
