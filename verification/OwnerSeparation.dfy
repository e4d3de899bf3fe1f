/** Owner separation: what a user is told does not depend on what other users do. */
module OwnerSeparation {
  import opened Wrappers
  import opened Documents
  import opened Paging
  import opened DocumentTable
  import opened TtlCache
  import opened DocumentService
  import opened CacheRefinement

  /** On whose behalf the call runs; empty for the system itself. */
  function User(c: Call): string {
    match c
    case Get(_, owner, _, _, _) => owner
    case List(q, _) => q.owner
    case Create(u, _, _, _) => u.createdBy
    case Update(_, owner, _, _, _, _, _) => owner
    case Delete(_, owner, _, _) => owner
    case MarkStatus(_, _, _, _) => ""
    case Janitor(_) => ""
  }

  predicate Foreign(c: Call, u: string) {
    User(c) != u && User(c) != ""
  }

  predicate Mine(t: Table, id: string, u: string) {
    id in t && t[id].createdBy == u
  }

  /** t1 and t2 hold the same rows of u. */
  ghost predicate Agree(t1: Table, t2: Table, u: string) {
    && WellFormed(t1) && WellFormed(t2)
    && forall id :: (Mine(t1, id, u) <==> Mine(t2, id, u)) && (Mine(t1, id, u) ==> t1[id] == t2[id])
  }

  predicate Fresh(c: Call, t: Table) {
    c.Create? ==> c.id !in t
  }

  lemma ListAgrees(t1: Table, t2: Table, f: Filter)
    requires f.owner != "" && Agree(t1, t2, f.owner)
    ensures Listed(t1, f) == Listed(t2, f)
  {
    forall id
      ensures id in t1 && Matches(t1[id], f) <==> id in t2 && Matches(t2[id], f)
      ensures id in t1 && Matches(t1[id], f) ==> t1[id] == t2[id]
    {
      assert Mine(t1, id, f.owner) <==> Mine(t2, id, f.owner);
    }
    assert MatchingKeys(t1, f) == MatchingKeys(t2, f);
    var keys := Ordered(MatchingKeys(t1, f));
    forall i | 0 <= i < |keys|
      ensures keys[i].id in t1 && keys[i].id in t2 && t1[keys[i].id] == t2[keys[i].id]
    {
      assert keys[i] in MatchingKeys(t1, f) && keys[i] in MatchingKeys(t2, f);
    }
    assert Rows(t1, keys) == Rows(t2, keys);
  }

  /** The same call made by u in two states that agree on u's rows is answered the same. */
  lemma SameToOwner(t1: Table, t2: Table, u: string, c: Call, maxSize: int)
    requires u != "" && Agree(t1, t2, u) && User(c) == u && Fresh(c, t1) && Fresh(c, t2)
    ensures Direct(t1, c, maxSize).1 == Direct(t2, c, maxSize).1
  {
    match c
    case List(q, _) => ListAgrees(t1, t2, Clamped(q));
    case Get(id, _, _, _, _) => assert Mine(t1, id, u) <==> Mine(t2, id, u);
    case Update(id, _, _, _, _, _, _) => assert Mine(t1, id, u) <==> Mine(t2, id, u);
    case Delete(id, _, _, _) => assert Mine(t1, id, u) <==> Mine(t2, id, u);
    case _ =>
  }

  lemma WellFormedStep(t: Table, c: Call, maxSize: int)
    requires WellFormed(t)
    ensures WellFormed(Direct(t, c, maxSize).0)
  {
  }

  lemma UpdateAgrees(t1: Table, t2: Table, u: string, c: Call)
    requires u != "" && Agree(t1, t2, u) && !Foreign(c, u) && c.Update?
    ensures Agree(DirectUpdate(t1, c).0, DirectUpdate(t2, c).0, u)
  {
    assert Mine(t1, c.id, u) <==> Mine(t2, c.id, u);
    WellFormedStep(t1, c, 0);
    WellFormedStep(t2, c, 0);
    forall id | Mine(DirectUpdate(t1, c).0, id, u) || Mine(DirectUpdate(t2, c).0, id, u)
      ensures Mine(t1, id, u) && Mine(t2, id, u)
    {
      assert Mine(t1, id, u) || Mine(t2, id, u);
    }
  }

  lemma StatusAgrees(t1: Table, t2: Table, u: string, id: string, st: Status, now: int)
    requires Agree(t1, t2, u)
    ensures Agree(StatusSet(t1, id, st, now), StatusSet(t2, id, st, now), u)
  {
    assert Mine(t1, id, u) <==> Mine(t2, id, u);
    forall i
      ensures Mine(StatusSet(t1, id, st, now), i, u) <==> Mine(t1, i, u)
      ensures Mine(StatusSet(t2, id, st, now), i, u) <==> Mine(t2, i, u)
    {
    }
  }

  /** The status write misses a row in one state only if that row is not u's. */
  lemma MarkStatusAgrees(t1: Table, t2: Table, u: string, c: Call, maxSize: int)
    requires Agree(t1, t2, u) && c.MarkStatus?
    ensures Agree(Direct(t1, c, maxSize).0, Direct(t2, c, maxSize).0, u)
  {
    StatusAgrees(t1, t2, u, c.id, c.status, c.now);
  }

  lemma DeleteAgrees(t1: Table, t2: Table, u: string, c: Call)
    requires u != "" && Agree(t1, t2, u) && !Foreign(c, u) && c.Delete?
    ensures Agree(DirectDelete(t1, c).0, DirectDelete(t2, c).0, u)
  {
    assert Mine(t1, c.id, u) <==> Mine(t2, c.id, u);
  }

  lemma CreateAgrees(t1: Table, t2: Table, u: string, c: Call, maxSize: int)
    requires u != "" && Agree(t1, t2, u) && c.Create? && Fresh(c, t1) && Fresh(c, t2)
    ensures Agree(DirectCreate(t1, c, maxSize).0, DirectCreate(t2, c, maxSize).0, u)
  {
  }

  /** Agreement survives a call by u or by the system made in both states. */
  lemma AgreeStep(t1: Table, t2: Table, u: string, c: Call, maxSize: int)
    requires u != "" && Agree(t1, t2, u) && !Foreign(c, u) && Fresh(c, t1) && Fresh(c, t2)
    ensures Agree(Direct(t1, c, maxSize).0, Direct(t2, c, maxSize).0, u)
  {
    match c
    case Create(_, _, _, _) => CreateAgrees(t1, t2, u, c, maxSize);
    case Update(_, _, _, _, _, _, _) => UpdateAgrees(t1, t2, u, c);
    case Delete(_, _, _, _) => DeleteAgrees(t1, t2, u, c);
    case MarkStatus(_, _, _, _) => MarkStatusAgrees(t1, t2, u, c, maxSize);
    case _ =>
  }

  /** Agreement survives a call by another user made in one state only. */
  lemma ForeignStep(t1: Table, t2: Table, u: string, c: Call, maxSize: int)
    requires u != "" && Agree(t1, t2, u) && Foreign(c, u) && Fresh(c, t1)
    ensures Agree(Direct(t1, c, maxSize).0, t2, u)
  {
    WellFormedStep(t1, c, maxSize);
  }

  // ---------------------------------------------------------------------------------------------
  // Runs
  // ---------------------------------------------------------------------------------------------

  /** The run with every other user's calls left out. */
  function Purged(calls: seq<Call>, u: string): seq<Call> {
    if calls == [] then []
    else
      var n := |calls| - 1;
      if Foreign(calls[n], u) then Purged(calls[..n], u) else Purged(calls[..n], u) + [calls[n]]
  }

  /** What the service with its cache tells u, in order. */
  function Told(s: State, calls: seq<Call>, u: string): seq<Answer> {
    if calls == [] then []
    else
      var n := |calls| - 1;
      Told(s, calls[..n], u) + (if User(calls[n]) == u then [Served(ServedRun(s, calls[..n]), calls[n]).1] else [])
  }

  function CreatedIds(calls: seq<Call>): set<string> {
    set c | c in calls && c.Create? :: c.id
  }

  /** Uploads get ids never used before. */
  predicate FreshIds(t: Table, calls: seq<Call>) {
    calls == [] ||
    var n := |calls| - 1;
    FreshIds(t, calls[..n]) && (calls[n].Create? ==> calls[n].id !in t && calls[n].id !in CreatedIds(calls[..n]))
  }

  lemma {:induction false} IdsKnown(t: Table, maxSize: int, calls: seq<Call>)
    ensures DirectRun(t, maxSize, calls).Keys <= t.Keys + CreatedIds(calls)
  {
    if calls == [] {
    } else {
      var n := |calls| - 1;
      IdsKnown(t, maxSize, calls[..n]);
      assert calls[n] in calls && forall c | c in calls[..n] :: c in calls;
      IdsStep(DirectRun(t, maxSize, calls[..n]), maxSize, calls[n]);
    }
  }

  lemma IdsStep(t: Table, maxSize: int, c: Call)
    ensures Direct(t, c, maxSize).0.Keys <= t.Keys + (if c.Create? then {c.id} else {})
  {
  }

  lemma {:induction false} PurgedIds(calls: seq<Call>, u: string)
    ensures forall c | c in Purged(calls, u) :: c in calls
  {
    if calls == [] {
    } else {
      PurgedIds(calls[..|calls| - 1], u);
    }
  }

  /** Leaving out the other users' calls changes none of u's rows. */
  lemma {:induction false} RunsAgree(t: Table, maxSize: int, calls: seq<Call>, u: string)
    requires u != "" && WellFormed(t) && FreshIds(t, calls)
    ensures Agree(DirectRun(t, maxSize, calls), DirectRun(t, maxSize, Purged(calls, u)), u)
  {
    if calls == [] {
    } else {
      var n := |calls| - 1;
      RunsAgree(t, maxSize, calls[..n], u);
      FreshInBoth(t, maxSize, calls, u);
      var t1, t2 := DirectRun(t, maxSize, calls[..n]), DirectRun(t, maxSize, Purged(calls[..n], u));
      if Foreign(calls[n], u) {
        ForeignStep(t1, t2, u, calls[n], maxSize);
      } else {
        AgreeStep(t1, t2, u, calls[n], maxSize);
        assert Purged(calls, u)[..|Purged(calls, u)| - 1] == Purged(calls[..n], u);
      }
    }
  }

  lemma FreshInBoth(t: Table, maxSize: int, calls: seq<Call>, u: string)
    requires calls != [] && FreshIds(t, calls)
    ensures var n := |calls| - 1;
            Fresh(calls[n], DirectRun(t, maxSize, calls[..n]))
            && Fresh(calls[n], DirectRun(t, maxSize, Purged(calls[..n], u)))
  {
    var n := |calls| - 1;
    IdsKnown(t, maxSize, calls[..n]);
    IdsKnown(t, maxSize, Purged(calls[..n], u));
    PurgedIds(calls[..n], u);
    assert CreatedIds(Purged(calls[..n], u)) <= CreatedIds(calls[..n]);
  }

  // ---------------------------------------------------------------------------------------------
  // Exactly when other users show
  // ---------------------------------------------------------------------------------------------

  /** The i-th call is a Get whose read fails, and the cache holds its document in just one of the two worlds:
      with the other users' earlier calls, or without them. */
  predicate SeesOthers(s: State, calls: seq<Call>, i: nat, u: string)
    requires i < |calls|
  {
    var c := calls[i];
    c.Get? && !c.up
    && Peek(ServedRun(s, calls[..i]).items, c.id, c.now).Some?
       != Peek(ServedRun(s, Purged(calls[..i], u)).items, c.id, c.now).Some?
  }

  lemma {:induction false} FreshPrefix(t: Table, calls: seq<Call>, i: nat)
    requires FreshIds(t, calls) && i <= |calls|
    ensures FreshIds(t, calls[..i])
    decreases |calls| - i
  {
    if i == |calls| {
      assert calls[..i] == calls;
    } else {
      FreshPrefix(t, calls, i + 1);
      assert calls[..i + 1][..i] == calls[..i];
    }
  }

  /** Two coherent states that agree on u's rows answer a call of u differently exactly when it is a Get whose
      read fails and just one of them holds its document in the cache. */
  lemma AnswersExactly(s1: State, s2: State, u: string, c: Call)
    requires u != "" && Coherent(s1) && Coherent(s2) && s1.maxSize == s2.maxSize && Agree(s1.table, s2.table, u)
    requires User(c) == u && Fresh(c, s1.table) && Fresh(c, s2.table)
    ensures Served(s1, c).1 != Served(s2, c).1
            <==> c.Get? && !c.up && Peek(s1.items, c.id, c.now).Some? != Peek(s2.items, c.id, c.now).Some?
  {
    AnswerStep(s1, c);
    AnswerStep(s2, c);
    SameToOwner(s1.table, s2.table, u, c, s1.maxSize);
    if c.Get? {
      assert Mine(s1.table, c.id, u) <==> Mine(s2.table, c.id, u);
    }
  }

  /** In every run, an answer given to u differs from the one u would have got, had no other user called
      before, exactly when the other users show in the cache. */
  lemma AnswerDiffersExactly(s: State, calls: seq<Call>, i: nat, u: string)
    requires u != "" && Coherent(s) && FreshIds(s.table, calls) && i < |calls| && User(calls[i]) == u
    ensures ServedAnswer(s, calls, i) != Served(ServedRun(s, Purged(calls[..i], u)), calls[i]).1
            <==> SeesOthers(s, calls, i, u)
  {
    var before, kept := calls[..i], Purged(calls[..i], u);
    FreshPrefix(s.table, calls, i);
    FreshPrefix(s.table, calls, i + 1);
    assert calls[..i + 1][..i] == before;
    RunsAgree(s.table, s.maxSize, before, u);
    FreshInBoth(s.table, s.maxSize, calls[..i + 1], u);
    CacheStaysCoherent(s, before);
    CacheStaysCoherent(s, kept);
    AnswersExactly(ServedRun(s, before), ServedRun(s, kept), u, calls[i]);
  }

  lemma LastTold(s: State, calls: seq<Call>, c: Call, u: string)
    ensures Told(s, calls + [c], u)
         == if User(c) == u then Told(s, calls, u) + [Served(ServedRun(s, calls), c).1] else Told(s, calls, u)
  {
    assert (calls + [c])[..|calls|] == calls;
    assert Told(s, calls, u) + [] == Told(s, calls, u);
  }

  lemma LastPurged(calls: seq<Call>, c: Call, u: string)
    ensures Purged(calls + [c], u) == if Foreign(c, u) then Purged(calls, u) else Purged(calls, u) + [c]
  {
    assert (calls + [c])[..|calls|] == calls;
  }

  lemma SnocEqual<T>(x: seq<T>, y: seq<T>, a: T, b: T)
    requires |x| == |y|
    ensures x + [a] == y + [b] <==> x == y && a == b
  {
    assert (x + [a])[|x|] == a && (y + [b])[|y|] == b;
    assert (x + [a])[..|x|] == x && (y + [b])[..|y|] == y;
  }

  /** One more call, told to u in both worlds. */
  lemma ToldNext(s: State, calls: seq<Call>, c: Call, u: string)
    requires u != "" && Coherent(s) && FreshIds(s.table, calls + [c])
    requires |Told(s, calls, u)| == |Told(s, Purged(calls, u), u)|
    ensures |Told(s, calls + [c], u)| == |Told(s, Purged(calls + [c], u), u)|
    ensures Told(s, calls + [c], u) == Told(s, Purged(calls + [c], u), u)
            <==> Told(s, calls, u) == Told(s, Purged(calls, u), u)
                 && (User(c) == u ==> !SeesOthers(s, calls + [c], |calls|, u))
  {
    hide Told, Purged, SeesOthers, Served, FreshIds, Coherent;
    var kept := Purged(calls, u);
    LastTold(s, calls, c, u);
    LastTold(s, kept, c, u);
    LastPurged(calls, c, u);
    if User(c) == u {
      assert (calls + [c])[..|calls|] == calls;
      AnswerDiffersExactly(s, calls + [c], |calls|, u);
      SnocEqual(Told(s, calls, u), Told(s, kept, u), Served(ServedRun(s, calls), c).1,
                Served(ServedRun(s, kept), c).1);
    }
  }

  lemma SeenBefore(s: State, calls: seq<Call>, c: Call, i: nat, u: string)
    requires i < |calls|
    ensures SeesOthers(s, calls, i, u) <==> SeesOthers(s, calls + [c], i, u)
  {
    assert (calls + [c])[..i] == calls[..i];
  }

  /** What the service tells u over a run is what it would tell u, had no other user ever called, if and only
      if at none of u's calls the other users show in the cache. */
  lemma {:induction false} ToldExactly(s: State, calls: seq<Call>, u: string)
    requires u != "" && Coherent(s) && FreshIds(s.table, calls)
    ensures |Told(s, calls, u)| == |Told(s, Purged(calls, u), u)|
    ensures Told(s, calls, u) == Told(s, Purged(calls, u), u)
            <==> forall i | 0 <= i < |calls| && User(calls[i]) == u :: !SeesOthers(s, calls, i, u)
  {
    hide SeesOthers, Served, Foreign;
    if calls == [] {
    } else {
      var n := |calls| - 1;
      var before := calls[..n];
      assert before + [calls[n]] == calls;
      ToldExactly(s, before, u);
      ToldNext(s, before, calls[n], u);
      forall i | 0 <= i < n
        ensures before[i] == calls[i] && (SeesOthers(s, before, i, u) <==> SeesOthers(s, calls, i, u))
      {
        SeenBefore(s, before, calls[n], i, u);
      }
    }
  }

  /** While no read of the user's own Gets fails, what the service tells them is what it would tell them had
      no other user ever called, shared cache and all. */
  lemma OthersInvisible(s: State, calls: seq<Call>, u: string)
    requires u != "" && Coherent(s) && FreshIds(s.table, calls)
    requires forall c | c in calls && c.Get? && User(c) == u :: c.up
    ensures Told(s, calls, u) == Told(s, Purged(calls, u), u)
  {
    ToldExactly(s, calls, u);
    forall i | 0 <= i < |calls| && User(calls[i]) == u
      ensures !SeesOthers(s, calls, i, u)
    {
      assert calls[i] in calls;
    }
  }

  /** The condition is needed: another user's Get, refused itself, leaves the owner's document in the cache,
      and the owner's next Get is answered although its read would fail. Alone it fails. */
  lemma ForeignGetHelps(s: State, id: string, u: string, other: string, now: int)
    requires Coherent(s) && s.items == map[] && s.ttl >= 0 && Mine(s.table, id, u)
    requires u != "" && other != "" && other != u
    ensures var theirs, mine := Get(id, other, now, now, true), Get(id, u, now, now, false);
            && Foreign(theirs, u) && !Foreign(mine, u)
            && ServedAnswer(s, [theirs, mine], 0) == One(Err(NotFound))
            && ServedAnswer(s, [theirs, mine], 1) == One(Ok(s.table[id]))
            && ServedAnswer(s, [mine], 0) == One(Err(Internal))
  {
    var theirs, mine := Get(id, other, now, now, true), Get(id, u, now, now, false);
    var calls := [theirs, mine];
    assert calls[..1] == [theirs] && [theirs][..0] == [] && calls[..0] == [] && [mine][..0] == [];
    assert ServedRun(s, calls[..1]) == s.(items := map[id := Entry(s.table[id], now + s.ttl)]);
  }
}
