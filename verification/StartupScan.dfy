/** The startup scan inside a process run: while it pages, the workers already take documents out of the
    pending set. What the scan then misses is bounded by what left. */
module StartupScan {
  import opened Basics
  import opened Wrappers
  import opened Paging
  import opened Requeue
  import opened Documents
  import opened DocumentTable
  import opened Lifecycle

  /** The pending documents at each List call of the run so far. */
  ghost function Lists(s: State, steps: seq<Action>): seq<set<Key>> {
    if steps == [] then []
    else
      var n := |steps| - 1;
      var t := Run(s, steps[..n]);
      Lists(s, steps[..n]) + (if steps[n].ListPage? && t.Some? then [PendingKeys(t.value.rows)] else [])
  }

  /** The documents the scan has offered to the queue so far, in order. */
  ghost function Offered(s: State, steps: seq<Action>): seq<Key> {
    if steps == [] then []
    else
      var n := |steps| - 1;
      var t := Run(s, steps[..n]);
      Offered(s, steps[..n])
      + (if steps[n].TryNext? && t.Some? && Enabled(t.value, TryNext) then [t.value.scan.rest[0]] else [])
  }

  /** The pending documents at the k-th List call; past the last one nothing changes any more. */
  ghost function ListAt(lists: seq<set<Key>>, k: nat): set<Key>
    requires lists != []
  {
    if k < |lists| then lists[k] else lists[|lists| - 1]
  }

  /** The listings as views. */
  ghost function ViewsOf(lists: seq<set<Key>>): Views
    requires lists != []
  {
    (k: nat) => Some(Ordered(ListAt(lists, k)))
  }

  ghost predicate Descending(lists: seq<set<Key>>) {
    forall j, k | 0 <= j <= k < |lists| :: lists[k] <= lists[j]
  }

  lemma DescendingMore(lists: seq<set<Key>>, next: set<Key>)
    requires Descending(lists) && (lists != [] ==> next <= lists[|lists| - 1])
    ensures Descending(lists + [next])
  {
    var all := lists + [next];
    forall j, k | 0 <= j <= k < |all|
      ensures all[k] <= all[j]
    {
      if j < k == |lists| { assert next <= lists[|lists| - 1] <= lists[j]; }
    }
  }

  lemma ElementsOrdered(s: set<Key>)
    ensures Elements(Ordered(s)) == s
  {
  }

  lemma ViewsShrink(lists: seq<set<Key>>)
    requires lists != [] && Descending(lists)
    ensures Listings(ViewsOf(lists)) && Shrinking(ViewsOf(lists))
  {
    var views := ViewsOf(lists);
    forall k: nat
      ensures InOrder(views(k).value)
    {
      OrderedInOrder(ListAt(lists, k));
    }
    forall j: nat, k: nat | j <= k
      ensures Elements(views(k).value) <= Elements(views(j).value)
    {
      ElementsOrdered(ListAt(lists, j));
      ElementsOrdered(ListAt(lists, k));
    }
  }

  /** The pages that the listings have, one after the other. */
  ghost function PagesOf(lists: seq<set<Key>>): seq<Key> {
    if lists == [] then []
    else PagesOf(lists[..|lists| - 1]) + PageOf(lists[|lists| - 1], BATCH * (|lists| - 1))
  }

  ghost predicate AllFull(lists: seq<set<Key>>) {
    forall k | 0 <= k < |lists| :: |PageOf(lists[k], BATCH * k)| == BATCH
  }

  lemma {:induction false} PagesGathered(lists: seq<set<Key>>, k: nat)
    requires lists != [] && k <= |lists|
    ensures PagesOf(lists[..k]) == Gathered(ViewsOf(lists), k)
  {
    if k == 0 {
    } else {
      PagesGathered(lists, k - 1);
      assert lists[..k][..k - 1] == lists[..k - 1];
    }
  }

  // ---------------------------------------------------------------------------------------------
  // What the run and its listings have to do with each other
  // ---------------------------------------------------------------------------------------------

  /** Where the scan stands: the pages it has read are those of the listings, and it has offered all of
      them but the rest of the current page. It ends with a short page, or with a failing List call. */
  ghost predicate Follows(s: State, lists: seq<set<Key>>, offered: seq<Key>, failed: bool) {
    var n := |lists|;
    match s.scan
    case Scanning(offset) => !failed && offset == BATCH * n && AllFull(lists) && offered == PagesOf(lists)
    case InPage(offset, rest, full) =>
      && !failed && n >= 1 && offset == BATCH * (n - 1) && AllFull(lists[..n - 1])
      && offered + rest == PagesOf(lists) && full == (|PageOf(lists[n - 1], offset)| == BATCH)
    case Serving =>
      offered == PagesOf(lists)
      && if failed then AllFull(lists)
         else n >= 1 && AllFull(lists[..n - 1]) && |PageOf(lists[n - 1], BATCH * (n - 1))| < BATCH
  }

  /** The listings only shrink, within the documents pending at the start, and what of these is still
      pending was on the last one. */
  ghost predicate Within(s: State, lists: seq<set<Key>>, backlog: set<Key>) {
    && Descending(lists)
    && (forall k | 0 <= k < |lists| :: lists[k] <= backlog)
    && (!s.scan.Serving? ==> PendingKeys(s.rows) <= backlog)
    && (lists != [] ==> PendingKeys(s.rows) * backlog <= lists[|lists| - 1])
  }

  lemma FollowsList(s: State, lists: seq<set<Key>>, offered: seq<Key>)
    requires Enabled(s, ListPage) && Follows(s, lists, offered, false)
    ensures Follows(Apply(s, ListPage), lists + [PendingKeys(s.rows)], offered, false)
  {
    var all := lists + [PendingKeys(s.rows)];
    assert all[..|lists|] == lists;
  }

  lemma FollowsTry(s: State, lists: seq<set<Key>>, offered: seq<Key>)
    requires Enabled(s, TryNext) && Follows(s, lists, offered, false)
    ensures Follows(Apply(s, TryNext), lists, offered + [s.scan.rest[0]], false)
  {
    var rest := s.scan.rest;
    assert (offered + [rest[0]]) + rest[1..] == offered + rest;
  }

  lemma FollowsEnd(s: State, lists: seq<set<Key>>, offered: seq<Key>)
    requires Enabled(s, EndPage) && Follows(s, lists, offered, false)
    ensures Follows(Apply(s, EndPage), lists, offered, false)
  {
    var n := |lists|;
    assert offered + [] == offered;
    assert forall k | 0 <= k < n - 1 :: lists[..n - 1][k] == lists[k];
  }

  lemma BacklogShrinks(s: State, a: Action, backlog: set<Key>)
    requires Inv(s) && Enabled(s, a) && forall k | k in backlog :: k.id in s.used
    ensures PendingKeys(Apply(s, a).rows) * backlog <= PendingKeys(s.rows) * backlog
  {
    if a.Insert? {
      assert forall id | id in Apply(s, a).rows && id != a.doc.id :: id in s.rows && Apply(s, a).rows[id] == s.rows[id];
    } else {
      PendingShrinks(s, a);
    }
  }

  lemma WithinStep(s: State, a: Action, lists: seq<set<Key>>, backlog: set<Key>)
    requires Inv(s) && Enabled(s, a) && !a.ListPage? && Within(s, lists, backlog)
    requires forall k | k in backlog :: k.id in s.used
    ensures Within(Apply(s, a), lists, backlog)
  {
    BacklogShrinks(s, a, backlog);
    if !a.Insert? { PendingShrinks(s, a); }
    ServingStays(s, a);
  }

  lemma ServingStays(s: State, a: Action)
    requires Enabled(s, a)
    ensures s.scan.Serving? ==> Apply(s, a).scan.Serving?
    ensures a.Insert? ==> s.scan.Serving?
  {
  }

  lemma OneMore(lists: seq<set<Key>>, keys: set<Key>, backlog: set<Key>)
    requires Descending(lists) && keys <= backlog && forall k | 0 <= k < |lists| :: lists[k] <= backlog
    requires lists != [] ==> keys * backlog <= lists[|lists| - 1]
    ensures var all := lists + [keys];
            && Descending(all) && (forall k | 0 <= k < |all| :: all[k] <= backlog)
            && keys * backlog <= all[|all| - 1]
  {
    assert keys * backlog == keys;
    DescendingMore(lists, keys);
  }

  lemma WithinList(s: State, lists: seq<set<Key>>, backlog: set<Key>)
    requires Enabled(s, ListPage) && Within(s, lists, backlog)
    ensures Within(Apply(s, ListPage), lists + [PendingKeys(s.rows)], backlog)
  {
    OneMore(lists, PendingKeys(s.rows), backlog);
  }

  /** No List call of the scan failed. */
  predicate NoFailure(steps: seq<Action>) {
    forall i | 0 <= i < |steps| :: !steps[i].ListFails?
  }

  /** In every run, whether or not a List call fails. */
  lemma {:induction false} RunFollows(s: State, steps: seq<Action>)
    requires Init(s) && Run(s, steps).Some?
    ensures var t := Run(s, steps).value;
            && Inv(t) && s.used <= t.used
            && Follows(t, Lists(s, steps), Offered(s, steps), !NoFailure(steps))
            && Within(t, Lists(s, steps), PendingKeys(s.rows))
  {
    hide Apply, Follows, Within;
    if steps == [] {
      StartFollows(s);
    } else {
      var n := |steps| - 1;
      var a := steps[n];
      RunFollows(s, steps[..n]);
      var t := Run(s, steps[..n]).value;
      Step(t, a);
      FailureLast(steps);
      RunFollowsStep(t, a, Lists(s, steps[..n]), Offered(s, steps[..n]), PendingKeys(s.rows), !NoFailure(steps[..n]));
      UsedKept(t, a);
    }
  }

  lemma StartFollows(s: State)
    requires Init(s)
    ensures Inv(s) && Follows(s, [], [], false) && Within(s, [], PendingKeys(s.rows))
  {
  }

  lemma FailureLast(steps: seq<Action>)
    requires steps != []
    ensures NoFailure(steps) <==> NoFailure(steps[..|steps| - 1]) && !steps[|steps| - 1].ListFails?
  {
    var before := steps[..|steps| - 1];
    assert forall i | 0 <= i < |before| :: before[i] == steps[i];
  }

  lemma RunFollowsStep(t: State, a: Action, lists: seq<set<Key>>, offered: seq<Key>, backlog: set<Key>, failed: bool)
    requires Inv(t) && Enabled(t, a)
    requires Follows(t, lists, offered, failed) && Within(t, lists, backlog)
    requires forall k | k in backlog :: k.id in t.used
    ensures var lists' := lists + (if a.ListPage? then [PendingKeys(t.rows)] else []);
            var offered' := offered + (if a.TryNext? then [t.scan.rest[0]] else []);
            && Follows(Apply(t, a), lists', offered', failed || a.ListFails?)
            && Within(Apply(t, a), lists', backlog)
  {
    assert lists + [] == lists && offered + [] == offered;
    if a.ListPage? {
      FollowsList(t, lists, offered);
      WithinList(t, lists, backlog);
    } else {
      WithinStep(t, a, lists, backlog);
      if a.TryNext? {
        FollowsTry(t, lists, offered);
      } else if a.EndPage? {
        FollowsEnd(t, lists, offered);
      } else if !a.ListFails? {
        ScanKept(t, a);
      }
    }
  }

  // ---------------------------------------------------------------------------------------------
  // The bound
  // ---------------------------------------------------------------------------------------------

  lemma ViewsFull(lists: seq<set<Key>>)
    requires lists != [] && AllFull(lists[..|lists| - 1])
    ensures FullPages(ViewsOf(lists), |lists| - 1)
  {
    var views, k := ViewsOf(lists), |lists| - 1;
    forall j: nat | j < k
      ensures |Page(views(j).value, BATCH, BATCH * j)| == BATCH
    {
      assert lists[..k][j] == lists[j];
      assert |PageOf(lists[j], BATCH * j)| == BATCH;
    }
  }

  lemma ListsMissFew(lists: seq<set<Key>>)
    requires lists != [] && Descending(lists) && AllFull(lists[..|lists| - 1])
    requires |PageOf(lists[|lists| - 1], BATCH * (|lists| - 1))| < BATCH
    ensures var offered, last := PagesOf(lists), lists[|lists| - 1];
            && NoDuplicates(offered) && Elements(offered) <= lists[0]
            && |Missed(offered, last)| <= |lists[0] - last|
  {
    var views, k := ViewsOf(lists), |lists| - 1;
    ViewsShrink(lists);
    ViewsFull(lists);
    ScanMissesFew(views, k);
    PagesGathered(lists, k + 1);
    assert lists[..k + 1] == lists;
    ElementsOrdered(lists[0]);
    ElementsOrdered(lists[k]);
  }

  /** Once the scan has ended without a failing List call, and from then on: it has offered no document
      twice and only documents pending at the start, and of these, the ones still pending that it never
      offered are no more than the ones no longer pending. */
  lemma ScanInRunMissesFew(s: State, steps: seq<Action>)
    requires Init(s) && Run(s, steps).Some? && NoFailure(steps) && Run(s, steps).value.scan.Serving?
    ensures var backlog, offered := PendingKeys(s.rows), Offered(s, steps);
            var still := backlog * PendingKeys(Run(s, steps).value.rows);
            && NoDuplicates(offered) && Elements(offered) <= backlog
            && |still - Elements(offered)| <= |backlog - still|
  {
    hide Run, Lists, Offered, PagesOf, PageOf, AllFull, Inv;
    RunFollows(s, steps);
    var lists, backlog, offered := Lists(s, steps), PendingKeys(s.rows), Offered(s, steps);
    var still := backlog * PendingKeys(Run(s, steps).value.rows);
    var last := lists[|lists| - 1];
    ListsMissFew(lists);
    assert still == PendingKeys(Run(s, steps).value.rows) * backlog;
    SubsetSize(still - Elements(offered), Missed(offered, last));
    SubsetSize(lists[0] - last, backlog - still);
  }

  lemma PagesOnce(lists: seq<set<Key>>)
    requires lists != [] && Descending(lists) && AllFull(lists[..|lists| - 1])
    ensures NoDuplicates(PagesOf(lists)) && Elements(PagesOf(lists)) <= lists[0]
  {
    var n := |lists|;
    if |PageOf(lists[n - 1], BATCH * (n - 1))| < BATCH {
      ListsMissFew(lists);
    } else {
      var views := ViewsOf(lists);
      ViewsShrink(lists);
      ViewsFull(lists);
      FailedScanSafe(views, n);
      PagesGathered(lists, n);
      assert lists[..n] == lists;
      ElementsOrdered(lists[0]);
    }
  }

  /** In every run, at every moment, whether or not a List call fails: the scan has offered no document twice
      and only documents pending at the start. */
  lemma OfferedOnce(s: State, steps: seq<Action>)
    requires Init(s) && Run(s, steps).Some?
    ensures NoDuplicates(Offered(s, steps)) && Elements(Offered(s, steps)) <= PendingKeys(s.rows)
  {
    RunFollows(s, steps);
    var lists, offered, t := Lists(s, steps), Offered(s, steps), Run(s, steps).value;
    var rest := if t.scan.InPage? then t.scan.rest else [];
    assert offered + rest == PagesOf(lists);
    if lists != [] {
      assert AllFull(lists[..|lists| - 1]);
      PagesOnce(lists);
      forall i | 0 <= i < |offered|
        ensures (offered + rest)[i] == offered[i] && offered[i] in lists[0]
      {
        assert (offered + rest)[i] in PagesOf(lists);
      }
    }
  }

  // ---------------------------------------------------------------------------------------------
  // When the scan reaches the whole backlog
  // ---------------------------------------------------------------------------------------------

  /** A run in which the scan has ended without a failing List call. */
  ghost predicate Completed(s: State, steps: seq<Action>) {
    Init(s) && Run(s, steps).Some? && NoFailure(steps) && Run(s, steps).value.scan.Serving?
  }

  /** What was pending at the start and still is has been offered. */
  ghost predicate Reached(s: State, steps: seq<Action>)
    requires Run(s, steps).Some?
  {
    PendingKeys(s.rows) * PendingKeys(Run(s, steps).value.rows) <= Elements(Offered(s, steps))
  }

  lemma {:induction false} FirstPageOf(lists: seq<set<Key>>)
    requires lists != []
    ensures Elements(PageOf(lists[0], 0)) <= Elements(PagesOf(lists))
  {
    var n := |lists|;
    if n == 1 {
      assert PagesOf(lists) == PagesOf([]) + PageOf(lists[0], 0);
    } else {
      FirstPageOf(lists[..n - 1]);
    }
  }

  lemma OnePageReaches(s: State, steps: seq<Action>)
    requires Completed(s, steps) && |PendingKeys(s.rows)| <= BATCH
    ensures Reached(s, steps)
  {
    RunFollows(s, steps);
    var lists, backlog := Lists(s, steps), PendingKeys(s.rows);
    FirstPageOf(lists);
    SubsetSize(lists[0], backlog);
    assert PageOf(lists[0], 0) == Ordered(lists[0]);
    ElementsOrdered(lists[0]);
    var now := PendingKeys(Run(s, steps).value.rows);
    assert backlog * now == now * backlog;
  }

  lemma ListsLast(s: State, steps: seq<Action>, a: Action)
    requires Run(s, steps).Some?
    ensures Lists(s, steps + [a])
         == Lists(s, steps) + (if a.ListPage? then [PendingKeys(Run(s, steps).value.rows)] else [])
  {
    assert (steps + [a])[..|steps|] == steps;
  }

  /** The scan's next step, when nothing else happens. */
  function NextScan(scan: Scan): Action {
    match scan
    case InPage(_, rest, _) => if rest != [] then TryNext else EndPage
    case _ => ListPage
  }

  /** The scan can go on from here over an unchanging set of pending documents. */
  predicate InBounds(scan: Scan, pending: nat) {
    match scan
    case Scanning(offset) => offset <= pending
    case InPage(offset, _, full) => full ==> offset + BATCH <= pending
    case Serving => true
  }

  lemma NextScanDoes(t: State)
    requires !t.scan.Serving? && InBounds(t.scan, |PendingKeys(t.rows)|)
    ensures Enabled(t, NextScan(t.scan))
    ensures var t' := Apply(t, NextScan(t.scan));
            && t'.rows == t.rows && InBounds(t'.scan, |PendingKeys(t.rows)|)
            && ScanWeight(t'.scan, |PendingKeys(t.rows)|) < ScanWeight(t.scan, |PendingKeys(t.rows)|)
  {
    if t.scan.Scanning? { PageDistinct(PendingKeys(t.rows), t.scan.offset); }
  }

  /** Bounds the steps left to the scan. */
  function ScanWeight(scan: Scan, pending: nat): nat {
    match scan
    case Scanning(offset) => 3 + (BATCH + 3) * (if offset <= pending then pending - offset else 0) + BATCH
    case InPage(offset, rest, full) =>
      1 + |rest|
      + (if full && offset + BATCH <= pending then 3 + BATCH + (BATCH + 3) * (pending - offset - BATCH) else 0)
    case Serving => 0
  }

  /** Left alone, the scan comes to its end, listing the same documents each time. */
  lemma {:induction false} FinishScan(s: State, steps: seq<Action>, keys: set<Key>) returns (all: seq<Action>)
    requires Run(s, steps).Some? && NoFailure(steps) && PendingKeys(Run(s, steps).value.rows) == keys
    requires InBounds(Run(s, steps).value.scan, |keys|)
    ensures Run(s, all).Some? && NoFailure(all) && Run(s, all).value.scan.Serving?
    ensures Run(s, all).value.rows == Run(s, steps).value.rows
    ensures Lists(s, steps) <= Lists(s, all)
            && forall k | |Lists(s, steps)| <= k < |Lists(s, all)| :: Lists(s, all)[k] == keys
    decreases ScanWeight(Run(s, steps).value.scan, |keys|)
  {
    hide Apply, Enabled, InBounds, ScanWeight, Lists, Run;
    var t := Run(s, steps).value;
    if t.scan.Serving? {
      all := steps;
    } else {
      var a := NextScan(t.scan);
      NextScanDoes(t);
      RunThen(s, steps, a);
      ListsLast(s, steps, a);
      all := FinishScan(s, steps + [a], keys);
    }
  }

  /** A document behind the first page of the first listing, and within it in all later ones, is passed by. */
  lemma {:induction false} PassedBy(lists: seq<set<Key>>, x: Key)
    requires lists != [] ==> |Earlier(x, lists[0])| >= BATCH
    requires forall k | 1 <= k < |lists| :: |Earlier(x, lists[k])| < BATCH
    ensures x !in PagesOf(lists)
  {
    hide PageOf;
    if lists == [] {
    } else {
      var n := |lists| - 1;
      PassedBy(lists[..n], x);
      NotOnPage(lists[n], x, BATCH * n);
    }
  }

  lemma NotOnPage(s: set<Key>, x: Key, offset: nat)
    requires |Earlier(x, s)| < offset || offset + BATCH <= |Earlier(x, s)|
    ensures x !in PageOf(s, offset)
  {
    var p := PageOf(s, offset);
    forall i | 0 <= i < |p|
      ensures p[i] != x
    {
      PageRank(s, BATCH, offset, i);
    }
  }

  /** The newest document is listed, offered, taken and marked ready before the scan goes on. */
  function NewestDone(): seq<Action> {
    [ListPage, TryNext, Take(0), MarkReady(0, 0)]
  }

  lemma NewestRow(rows: Table, key: Key)
    requires key in PendingKeys(rows)
    ensures key.id in rows && PendingKeys(StatusSet(rows, key.id, Ready, 0)) == PendingKeys(rows) - {key}
  {
    var rows' := StatusSet(rows, key.id, Ready, 0);
    forall k
      ensures k in PendingKeys(rows') <==> k in PendingKeys(rows) - {key}
    {
      if k in PendingKeys(rows) - {key} {
        assert k.id in rows && k == Key(rows[k.id].createdAt, k.id);
        assert k.id != key.id;
        assert rows'[k.id] == rows[k.id];
      }
    }
  }

  lemma StartsEmpty(s: State)
    ensures Run(s, []) == Some(s) && Lists(s, []) == []
  {
  }

  /** The first page is listed and its first document offered. */
  lemma NewestOffered(s: State) returns (t: State)
    requires Init(s) && s.cap >= 1 && |PendingKeys(s.rows)| > BATCH
    ensures var backlog, p := PendingKeys(s.rows), PageOf(PendingKeys(s.rows), 0);
            && |p| == BATCH && p[0] == Ordered(backlog)[0] && p[0] in backlog
            && t == s.(scan := InPage(0, p[1..], true), jobs := [p[0].id], accepted := {p[0].id})
            && Run(s, [ListPage] + [TryNext]) == Some(t) && Lists(s, [ListPage] + [TryNext]) == [backlog]
  {
    var p := FirstPage(PendingKeys(s.rows));
    hide Run, Lists, Apply;
    StartsEmpty(s);
    ListDoes(s);
    RunThen(s, [], ListPage);
    ListsLast(s, [], ListPage);
    assert [] + [ListPage] == [ListPage];
    var s1 := s.(scan := InPage(0, p, true));
    TryDoes(s1, p);
    RunThen(s, [ListPage], TryNext);
    ListsLast(s, [ListPage], TryNext);
    t := s.(scan := InPage(0, p[1..], true), jobs := [p[0].id], accepted := {p[0].id});
  }

  lemma FirstPage(backlog: set<Key>) returns (p: seq<Key>)
    requires |backlog| > BATCH
    ensures p == PageOf(backlog, 0) && |p| == BATCH && p[0] == Ordered(backlog)[0] && p[0] in backlog
  {
    p := PageOf(backlog, 0);
    PageDistinct(backlog, 0);
    PageRank(backlog, BATCH, 0, 0);
  }

  lemma ListDoes(s: State)
    requires s.scan == Scanning(0)
    ensures var p := PageOf(PendingKeys(s.rows), 0); Apply(s, ListPage) == s.(scan := InPage(0, p, |p| == BATCH))
  {
    hide PageOf;
  }

  lemma TryDoes(s: State, p: seq<Key>)
    requires s.scan == InPage(0, p, true) && p != [] && s.jobs == [] && s.accepted == {} && !s.closed && s.cap >= 1
    requires !s.twice
    ensures Apply(s, TryNext) == s.(scan := InPage(0, p[1..], true), jobs := [p[0].id], accepted := {p[0].id})
  {
  }

  /** A worker takes the only queued document and marks it ready. */
  lemma NewestMarked(s: State, steps: seq<Action>, t: State, id: string)
    requires Run(s, steps) == Some(t) && t.jobs == [id] && t.workers == map[] && id in t.rows
    ensures Run(s, steps + [Take(0)] + [MarkReady(0, 0)])
         == Some(t.(jobs := [], rows := StatusSet(t.rows, id, Ready, 0)))
    ensures Lists(s, steps + [Take(0)] + [MarkReady(0, 0)]) == Lists(s, steps)
  {
    hide Run, Lists, StatusSet;
    RunThen(s, steps, Take(0));
    ListsLast(s, steps, Take(0));
    assert t.jobs[1..] == [];
    var u := t.(jobs := [], workers := map[0 := Task(id, false)]);
    assert Run(s, steps + [Take(0)]) == Some(u);
    RunThen(s, steps + [Take(0)], MarkReady(0, 0));
    ListsLast(s, steps + [Take(0)], MarkReady(0, 0));
    assert map[0 := Task(id, false)] - {0} == map[];
  }

  lemma NewestLeavesInRun(s: State)
    requires Init(s) && s.cap >= 1 && |PendingKeys(s.rows)| > BATCH
    ensures var backlog, p := PendingKeys(s.rows), PageOf(PendingKeys(s.rows), 0);
            && |p| == BATCH && p[0] == Ordered(backlog)[0] && p[0].id in s.rows
            && Run(s, NewestDone()) == Some(s.(scan := InPage(0, p[1..], true), accepted := {p[0].id},
                                               rows := StatusSet(s.rows, p[0].id, Ready, 0)))
            && Lists(s, NewestDone()) == [backlog]
  {
    hide Run, Lists, PageOf, Ordered, StatusSet;
    var t := NewestOffered(s);
    NewestMarked(s, [ListPage] + [TryNext], t, PageOf(PendingKeys(s.rows), 0)[0].id);
    assert [ListPage] + [TryNext] + [Take(0)] + [MarkReady(0, 0)] == NewestDone();
  }

  /** The newest document, and the first one behind the first page, which moves onto it when the newest leaves. */
  lemma SecondPageFirst(backlog: set<Key>) returns (newest: Key, x: Key)
    requires |backlog| > BATCH
    ensures newest == Ordered(backlog)[0] && newest in backlog && x in backlog && x != newest
    ensures |Earlier(x, backlog)| == BATCH && |Earlier(x, backlog - {newest})| == BATCH - 1
    ensures |backlog - {newest}| >= BATCH
  {
    var r := Ordered(backlog);
    newest, x := r[0], r[BATCH];
    OrderedInOrder(backlog);
    assert r[0] in r && r[BATCH] in r && Before(newest, x);
    RankIsIndex(backlog, BATCH);
    EarlierThan(x, newest, backlog);
    BeforeTotal(x, x);
  }

  /** With more documents than one page holds, some run passes one of them by. */
  lemma LargeBacklogPassedBy(s: State) returns (steps: seq<Action>)
    requires Init(s) && s.cap >= 1 && |PendingKeys(s.rows)| > 500
    ensures Completed(s, steps) && !Reached(s, steps)
  {
    hide Run, Lists, Offered, PendingKeys, Within, Inv;
    var backlog := PendingKeys(s.rows);
    var newest, x := SecondPageFirst(backlog);
    NewestLeavesInRun(s);
    NewestRow(s.rows, newest);
    steps := FinishScan(s, NewestDone(), backlog - {newest});
    PassedBy(Lists(s, steps), x);
    RunFollows(s, steps);
    assert x in backlog * PendingKeys(Run(s, steps).value.rows);
  }

  /** For every state a process may start in: in every run the scan reaches everything still pending, if and
      only if the backlog fits the first page. */
  lemma ScanInRunCompleteExactly(s: State)
    requires Init(s) && s.cap >= 1
    ensures (forall steps | Completed(s, steps) :: Reached(s, steps)) <==> |PendingKeys(s.rows)| <= 500
  {
    if |PendingKeys(s.rows)| <= BATCH {
      forall steps | Completed(s, steps)
        ensures Reached(s, steps)
      {
        OnePageReaches(s, steps);
      }
    } else {
      var steps := LargeBacklogPassedBy(s);
    }
  }
}
