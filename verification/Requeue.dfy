/** The startup scan that re-enqueues pending documents, paging by offset while workers already run. */
module Requeue {
  import opened Basics
  import opened Wrappers
  import opened Paging

  const BATCH: nat := 500

  /** The pending rows at each successive List call, in listing order; None where that call fails. */
  type Views = nat -> Option<seq<Key>>

  ghost predicate Listings(views: Views) {
    forall k: nat | views(k).Some? :: InOrder(views(k).value)
  }

  /** The scan runs before the server accepts requests, so rows only leave the pending set. */
  ghost predicate Shrinking(views: Views) {
    forall j: nat, k: nat | j <= k && views(j).Some? && views(k).Some? ::
      Elements(views(k).value) <= Elements(views(j).value)
  }

  ghost predicate NoDuplicates<T>(s: seq<T>) {
    forall i, j | 0 <= i < j < |s| :: s[i] != s[j]
  }

  function Elements<T>(s: seq<T>): set<T> {
    set x | x in s
  }

  ghost function PageOf(s: set<Key>, offset: nat): (p: seq<Key>)
    ensures |p| <= BATCH
  {
    Page(Ordered(s), BATCH, offset)
  }

  /** Everything tried so far that is still pending sits before the offset. */
  ghost predicate Passed(tried: seq<Key>, s: set<Key>, offset: nat) {
    forall k | k in tried && k in s :: |Earlier(k, s)| < offset
  }

  lemma PassedLater(tried: seq<Key>, s: set<Key>, t: set<Key>, offset: nat)
    requires Passed(tried, s, offset) && t <= s
    ensures Passed(tried, t, offset)
  {
    forall k | k in tried && k in t
      ensures |Earlier(k, t)| < offset
    {
      RankShrinks(k, t, t);
      RankShrinks(k, s, t);
    }
  }

  lemma {:induction false} DistinctCount<T>(s: seq<T>)
    requires NoDuplicates(s)
    ensures |Elements(s)| == |s|
  {
    if s == [] {
    } else {
      var n := |s| - 1;
      DistinctCount(s[..n]);
      assert Elements(s) == Elements(s[..n]) + {s[n]};
      assert s[n] !in s[..n];
    }
  }

  lemma PageDistinct(s: set<Key>, offset: nat)
    ensures NoDuplicates(PageOf(s, offset))
    ensures |PageOf(s, offset)| == if |s| <= offset then 0 else Min(BATCH, |s| - offset)
  {
    OrderedRanked(s);
    RankedDistinct(Ordered(s), s, BATCH, offset);
  }

  /** A page read at the offset repeats nothing tried before, and the next offset passes it. */
  lemma PageIsNew(tried: seq<Key>, s: set<Key>, offset: nat)
    requires NoDuplicates(tried) && Passed(tried, s, offset)
    ensures NoDuplicates(tried + PageOf(s, offset))
    ensures Passed(tried + PageOf(s, offset), s, offset + BATCH)
    ensures forall k | k in PageOf(s, offset) :: k in s
  {
    var p := PageOf(s, offset);
    PageDistinct(s, offset);
    forall i | 0 <= i < |p|
      ensures p[i] !in tried && p[i] in s && |Earlier(p[i], s)| < offset + BATCH
    {
      PageRank(s, BATCH, offset, i);
    }
  }

  /** Still pending at the end, never tried. */
  ghost function Missed(tried: seq<Key>, last: set<Key>): set<Key> {
    last - Elements(tried)
  }

  lemma TriedSize(t: set<Key>, first: set<Key>, last: set<Key>)
    requires t <= first && last <= first
    ensures |t| <= |t * last| + |first - last|
  {
    SubsetSize(t - last, first - last);
    assert t == t * last + (t - last);
  }

  /** Full pages before a short one leave out no more keys than left the set meanwhile. */
  lemma MissedBound(tried: seq<Key>, first: set<Key>, last: set<Key>, offset: nat)
    requires NoDuplicates(tried) && Elements(tried) <= first && last <= first
    requires |tried| == offset + (if |last| <= offset then 0 else |last| - offset)
    ensures |Missed(tried, last)| <= |first - last|
  {
    var t := Elements(tried);
    DistinctCount(tried);
    TriedSize(t, first, last);
    assert last == t * last + Missed(tried, last);
  }

  /** What holds when the k-th page is about to be read. */
  ghost predicate Scanned(views: Views, k: nat, tried: seq<Key>) {
    && |tried| == BATCH * k && NoDuplicates(tried)
    && (forall j: nat | j < k :: views(j).Some?)
    && (k > 0 ==> Elements(tried) <= Elements(views(0).value))
    && (forall j: nat | j >= k && views(j).Some? :: Passed(tried, Elements(views(j).value), BATCH * k))
  }

  lemma PageRead(views: Views, k: nat, tried: seq<Key>)
    requires Listings(views) && Scanned(views, k, tried) && views(k).Some?
    ensures var s := Elements(views(k).value);
            var p := Page(views(k).value, BATCH, BATCH * k);
            && p == PageOf(s, BATCH * k)
            && NoDuplicates(tried + p) && Passed(tried + p, s, BATCH * k + BATCH) && Elements(p) <= s
  {
    var s := Elements(views(k).value);
    OrderUnique(views(k).value, s);
    PageIsNew(tried, s, BATCH * k);
  }

  lemma PageWithin(views: Views, k: nat, tried: seq<Key>)
    requires Listings(views) && Shrinking(views) && Scanned(views, k, tried) && views(k).Some?
    ensures var p := Page(views(k).value, BATCH, BATCH * k);
            Elements(views(k).value) <= Elements(views(0).value) && Elements(tried + p) <= Elements(views(0).value)
  {
    PageRead(views, k, tried);
    var p := Page(views(k).value, BATCH, BATCH * k);
    assert Elements(tried + p) == Elements(tried) + Elements(p);
    if k == 0 { assert tried == []; }
  }

  lemma FullPageStep(views: Views, k: nat, tried: seq<Key>)
    requires Listings(views) && Shrinking(views) && Scanned(views, k, tried) && views(k).Some?
    requires |Page(views(k).value, BATCH, BATCH * k)| == BATCH
    ensures Scanned(views, k + 1, tried + Page(views(k).value, BATCH, BATCH * k))
  {
    var s := Elements(views(k).value);
    var all := tried + Page(views(k).value, BATCH, BATCH * k);
    PageRead(views, k, tried);
    PageWithin(views, k, tried);
    forall j: nat | j >= k + 1 && views(j).Some?
      ensures Passed(all, Elements(views(j).value), BATCH * (k + 1))
    {
      PassedLater(all, s, Elements(views(j).value), BATCH * (k + 1));
    }
  }

  lemma ShortPageStep(views: Views, k: nat, tried: seq<Key>)
    requires Listings(views) && Shrinking(views) && Scanned(views, k, tried) && views(k).Some?
    requires |Page(views(k).value, BATCH, BATCH * k)| < BATCH
    ensures var s := Elements(views(k).value);
            |Missed(tried + Page(views(k).value, BATCH, BATCH * k), s)| <= |Elements(views(0).value) - s|
  {
    var s := Elements(views(k).value);
    PageRead(views, k, tried);
    PageWithin(views, k, tried);
    PageDistinct(s, BATCH * k);
    MissedBound(tried + PageOf(s, BATCH * k), Elements(views(0).value), s, BATCH * k);
  }

  /** The first k pages, one after the other. */
  function Gathered(views: Views, k: nat): seq<Key>
    requires forall j: nat | j < k :: views(j).Some?
  {
    if k == 0 then [] else Gathered(views, k - 1) + Page(views(k - 1).value, BATCH, BATCH * (k - 1))
  }

  /** The first k List calls succeeded and each gave a full page. */
  predicate FullPages(views: Views, k: nat) {
    forall j: nat | j < k :: views(j).Some? && |Page(views(j).value, BATCH, BATCH * j)| == BATCH
  }

  lemma {:induction false} FullPagesScanned(views: Views, k: nat)
    requires Listings(views) && Shrinking(views) && FullPages(views, k)
    ensures Scanned(views, k, Gathered(views, k))
    ensures k > 0 ==> BATCH * k <= |views(0).value|
  {
    if k == 0 {
    } else {
      FullPagesScanned(views, k - 1);
      FullPageStep(views, k - 1, Gathered(views, k - 1));
      DistinctCount(Gathered(views, k));
      SubsetSize(Elements(Gathered(views, k)), Elements(views(0).value));
      OrderUnique(views(0).value, Elements(views(0).value));
    }
  }

  /** However the pending set shrinks between pages: a finished scan offers no document twice, and
      those still pending at the end but never offered are no more than those that left meanwhile. */
  lemma ScanMissesFew(views: Views, k: nat)
    requires Listings(views) && Shrinking(views) && FullPages(views, k) && views(k).Some?
    requires |Page(views(k).value, BATCH, BATCH * k)| < BATCH
    ensures var offered := Gathered(views, k + 1);
            var first, last := Elements(views(0).value), Elements(views(k).value);
            && NoDuplicates(offered) && Elements(offered) <= first && last <= first
            && |Missed(offered, last)| <= |first - last|
  {
    FullPagesScanned(views, k);
    PageRead(views, k, Gathered(views, k));
    PageWithin(views, k, Gathered(views, k));
    ShortPageStep(views, k, Gathered(views, k));
  }

  /** A scan cut short by a failing List call still offers no document twice. */
  lemma FailedScanSafe(views: Views, k: nat)
    requires Listings(views) && Shrinking(views) && FullPages(views, k)
    ensures NoDuplicates(Gathered(views, k))
    ensures k > 0 ==> Elements(Gathered(views, k)) <= Elements(views(0).value)
  {
    FullPagesScanned(views, k);
  }

  lemma {:induction false} FrozenGathers(views: Views, r: seq<Key>, k: nat)
    requires forall j: nat | j < k :: views(j) == Some(r)
    ensures Gathered(views, k) == Pages(r, BATCH, k)
  {
    if k == 0 {
    } else {
      FrozenGathers(views, r, k - 1);
    }
  }

  /** With a frozen table the pages concatenate to exactly the sorted pending list. */
  lemma FrozenScanIsComplete(views: Views, r: seq<Key>, k: nat)
    requires forall j: nat | j <= k :: views(j) == Some(r)
    requires |Page(r, BATCH, BATCH * k)| < BATCH
    ensures Gathered(views, k + 1) == r
  {
    FrozenGathers(views, r, k + 1);
    PagesTile(r, BATCH, k + 1);
  }

  // ---------------------------------------------------------------------------------------------
  // When the scan reaches the whole backlog
  // ---------------------------------------------------------------------------------------------

  /** A scan of the backlog first that ends with a short page k. */
  ghost predicate Finished(views: Views, first: seq<Key>, k: nat) {
    && Listings(views) && Shrinking(views) && FullPages(views, k)
    && views(0) == Some(first) && views(k).Some? && |Page(views(k).value, BATCH, BATCH * k)| < BATCH
  }

  ghost predicate NothingMissed(views: Views, k: nat)
    requires FullPages(views, k) && views(k).Some?
  {
    Missed(Gathered(views, k + 1), Elements(views(k).value)) == {}
  }

  lemma {:induction false} FirstPageOffered(views: Views, k: nat)
    requires k >= 1 && forall j: nat | j < k :: views(j).Some?
    ensures Elements(Page(views(0).value, BATCH, 0)) <= Elements(Gathered(views, k))
  {
    if k > 1 {
      FirstPageOffered(views, k - 1);
    } else {
      assert Gathered(views, 1) == Gathered(views, 0) + Page(views(0).value, BATCH, 0);
    }
  }

  lemma OnePageSuffices(views: Views, first: seq<Key>, k: nat)
    requires Finished(views, first, k) && |first| <= BATCH
    ensures NothingMissed(views, k)
  {
    FirstPageOffered(views, k + 1);
    assert Page(first, BATCH, 0) == first;
  }

  /** The newest document leaves right after the first page. */
  function NewestLeaves(first: seq<Key>): Views
    requires first != []
  {
    (j: nat) => Some(if j == 0 then first else first[1..])
  }

  lemma PageLacks(r: seq<Key>, o: nat, at: nat)
    requires InOrder(r) && at < |r| && (at < o || o + BATCH <= at)
    ensures r[at] !in Page(r, BATCH, o)
  {
    var p := Page(r, BATCH, o);
    forall i | 0 <= i < |p|
      ensures p[i] != r[at]
    {
      PageAt(r, BATCH, o, i);
      BeforeTotal(r[o + i], r[at]);
    }
  }

  /** The document just behind the first page slips onto it when the others move up. */
  lemma {:induction false} SlippedNotOffered(first: seq<Key>, k: nat)
    requires |first| > BATCH && InOrder(first)
    ensures first[BATCH] !in Gathered(NewestLeaves(first), k)
  {
    if k == 0 {
    } else {
      SlippedNotOffered(first, k - 1);
      if k == 1 {
        PageLacks(first, 0, BATCH);
      } else {
        PageLacks(first[1..], BATCH * (k - 1), BATCH - 1);
      }
    }
  }

  lemma NewestLeavesShrinks(first: seq<Key>)
    requires InOrder(first) && first != []
    ensures Listings(NewestLeaves(first)) && Shrinking(NewestLeaves(first))
  {
  }

  lemma NewestLeavesPages(first: seq<Key>, k: nat)
    requires |first| > BATCH && k == (|first| - 1) / BATCH
    ensures FullPages(NewestLeaves(first), k) && k >= 1
    ensures |Page(first[1..], BATCH, BATCH * k)| < BATCH
  {
    forall j: nat | j < k
      ensures |Page(NewestLeaves(first)(j).value, BATCH, BATCH * j)| == BATCH
    {
      assert BATCH * (j + 1) <= |first| - 1;
    }
  }

  lemma LargeBacklogMisses(first: seq<Key>) returns (k: nat)
    requires InOrder(first) && |first| > BATCH
    ensures Finished(NewestLeaves(first), first, k) && !NothingMissed(NewestLeaves(first), k)
  {
    var views := NewestLeaves(first);
    k := (|first| - 1) / BATCH;
    NewestLeavesShrinks(first);
    NewestLeavesPages(first, k);
    SlippedNotOffered(first, k + 1);
    assert first[1..][BATCH - 1] == first[BATCH];
    assert first[BATCH] in Missed(Gathered(views, k + 1), Elements(views(k).value));
  }

  /** The scan is sure to reach every document still pending, however others leave meanwhile, exactly when
      the backlog fits the first page. */
  lemma ScanCompleteExactly(first: seq<Key>)
    requires InOrder(first)
    ensures (forall views: Views, k: nat | Finished(views, first, k) :: NothingMissed(views, k))
            <==> |first| <= 500
  {
    if |first| <= BATCH {
      forall views: Views, k: nat | Finished(views, first, k)
        ensures NothingMissed(views, k)
      {
        OnePageSuffices(views, first, k);
      }
    } else {
      var k := LargeBacklogMisses(first);
    }
  }

  // ---------------------------------------------------------------------------------------------
  // The loop
  // ---------------------------------------------------------------------------------------------

  /** The scan loop. attempted lists the ids offered to the queue, in order; pages counts the full pages;
      complete tells that it ended with a short page rather than a failing List call. */
  method RequeuePending(views: Views) returns (attempted: seq<Key>, total: nat, pages: nat, complete: bool)
    requires Listings(views) && Shrinking(views)
    ensures FullPages(views, pages) && total == |attempted|
    ensures complete <==> views(pages).Some?
    ensures complete ==> |Page(views(pages).value, BATCH, BATCH * pages)| < BATCH
    ensures attempted == Gathered(views, if complete then pages + 1 else pages)
  {
    attempted, total, pages := [], 0, 0;
    var offset := 0;
    while true
      invariant offset == BATCH * pages && FullPages(views, pages)
      invariant attempted == Gathered(views, pages) && total == |attempted|
      decreases (if views(0).Some? then |views(0).value| else 0) - offset
    {
      if views(pages).None? {
        return attempted, total, pages, false;
      }
      var docs := Page(views(pages).value, 500, offset);
      ghost var before := attempted;
      for i := 0 to |docs|
        invariant attempted == before + docs[..i]
      {
        attempted := attempted + [docs[i]];
      }
      total := total + |docs|;
      if |docs| < 500 {
        return attempted, total, pages, true;
      }
      pages := pages + 1;
      offset := offset + 500;
      FullPagesScanned(views, pages);
    }
  }
}
