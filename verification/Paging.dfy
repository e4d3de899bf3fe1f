/** The listing order of documents, newest first with the id as tie-breaker, and pages of it. */
module Paging {
  import opened Basics

  /** The two columns every listing is ordered by; the id makes them unique. */
  datatype Key = Key(createdAt: int, id: string)

  /** Byte order of strings. */
  predicate Less(a: string, b: string) {
    b != [] && (a == [] || a[0] < b[0] || (a[0] == b[0] && Less(a[1..], b[1..])))
  }

  /** ORDER BY created_at DESC, id DESC. */
  predicate Before(a: Key, b: Key) {
    a.createdAt > b.createdAt || (a.createdAt == b.createdAt && Less(b.id, a.id))
  }

  /** b is larger than a at the i-th character, or goes on where a ends, and they agree before that. */
  predicate LessFrom(a: string, b: string, i: int) {
    0 <= i <= |a| && i < |b| && a[..i] == b[..i] && (i == |a| || a[i] < b[i])
  }

  /** The order is lexicographic: it is decided at the first character that differs. */
  lemma {:induction false} LessExact(a: string, b: string)
    ensures Less(a, b) <==> exists i :: LessFrom(a, b, i)
  {
    if a == [] || b == [] || a[0] != b[0] {
      assert LessFrom(a, b, 0) <==> Less(a, b);
    } else {
      LessExact(a[1..], b[1..]);
      assert a == [a[0]] + a[1..] && b == [b[0]] + b[1..];
      forall i | LessFrom(a[1..], b[1..], i)
        ensures LessFrom(a, b, i + 1)
      {
        assert a[..i + 1] == [a[0]] + a[1..][..i] && b[..i + 1] == [b[0]] + b[1..][..i];
      }
      forall i | LessFrom(a, b, i)
        ensures i > 0 && LessFrom(a[1..], b[1..], i - 1)
      {
        assert a[1..][..i - 1] == a[..i][1..] && b[1..][..i - 1] == b[..i][1..];
      }
    }
  }

  lemma {:induction false} LessTotal(a: string, b: string)
    ensures a == b || Less(a, b) || Less(b, a)
    ensures !(Less(a, b) && Less(b, a)) && !Less(a, a)
  {
    if a == [] {
    } else if b == [] {
      LessTotal(a[1..], a[1..]);
    } else {
      LessTotal(a[1..], b[1..]);
      LessTotal(a[1..], a[1..]);
      assert a == [a[0]] + a[1..] && b == [b[0]] + b[1..];
    }
  }

  lemma {:induction false} LessTransitive(a: string, b: string, c: string)
    requires Less(a, b) && Less(b, c)
    ensures Less(a, c)
  {
    if a == [] || a[0] != b[0] || b[0] != c[0] {
    } else {
      LessTransitive(a[1..], b[1..], c[1..]);
    }
  }

  /** The listing order is a strict total order on keys: this is what makes paging reproducible. */
  lemma BeforeTotal(a: Key, b: Key)
    ensures a == b || Before(a, b) || Before(b, a)
    ensures !(Before(a, b) && Before(b, a)) && !Before(a, a)
  {
    LessTotal(a.id, b.id);
    LessTotal(a.id, a.id);
  }

  lemma BeforeTransitive(a: Key, b: Key, c: Key)
    requires Before(a, b) && Before(b, c)
    ensures Before(a, c)
  {
    if a.createdAt == b.createdAt == c.createdAt {
      LessTransitive(c.id, b.id, a.id);
    }
  }

  predicate IsFirst(k: Key, s: set<Key>) {
    k in s && forall l | l in s && l != k :: Before(k, l)
  }

  lemma {:induction false} FirstExists(s: set<Key>)
    requires s != {}
    ensures exists k :: IsFirst(k, s)
  {
    var x :| x in s;
    if s == {x} {
      assert IsFirst(x, s);
    } else {
      FirstExists(s - {x});
      var y :| IsFirst(y, s - {x});
      BeforeTotal(x, y);
      if Before(x, y) {
        forall l | l in s && l != x && l != y
          ensures Before(x, l)
        {
          BeforeTransitive(x, y, l);
        }
        assert IsFirst(x, s);
      } else {
        assert IsFirst(y, s);
      }
    }
  }

  lemma FirstUnique(s: set<Key>)
    ensures forall k, l :: IsFirst(k, s) && IsFirst(l, s) ==> k == l
  {
    forall k, l | IsFirst(k, s) && IsFirst(l, s)
      ensures k == l
    {
      BeforeTotal(k, l);
    }
  }

  function First(s: set<Key>): (k: Key)
    requires s != {}
    ensures IsFirst(k, s)
  {
    FirstExists(s);
    FirstUnique(s);
    var k :| k in s && IsFirst(k, s);
    k
  }

  /** All keys of s in listing order. */
  function Ordered(s: set<Key>): (r: seq<Key>)
    ensures |r| == |s|
    ensures forall k :: k in r <==> k in s
  {
    if s == {} then [] else [First(s)] + Ordered(s - {First(s)})
  }

  ghost predicate InOrder(r: seq<Key>) {
    forall i, j | 0 <= i < j < |r| :: Before(r[i], r[j])
  }

  lemma {:induction false} OrderedInOrder(s: set<Key>)
    ensures InOrder(Ordered(s))
  {
    if s == {} {
    } else {
      OrderedInOrder(s - {First(s)});
    }
  }

  /** Any listing of the same rows in this order is the same listing. */
  lemma {:induction false} OrderUnique(r: seq<Key>, s: set<Key>)
    requires InOrder(r) && forall k :: k in r <==> k in s
    ensures r == Ordered(s)
  {
    if r == [] {
      assert s == {};
    } else {
      assert r[0] in s;
      var f := First(s);
      if r[0] != f {
        var i :| 0 <= i < |r| && r[i] == f;
        BeforeTotal(r[0], r[i]);
        assert false;
      }
      forall k
        ensures k in r[1..] <==> k in s - {f}
      {
        if k in r[1..] {
          var i :| 1 <= i < |r| && r[i] == k;
          assert Before(r[0], r[i]);
          BeforeTotal(f, f);
        }
        if k in s - {f} {
          var i :| 0 <= i < |r| && r[i] == k;
          assert r[1..][i - 1] == k;
        }
      }
      OrderUnique(r[1..], s - {f});
    }
  }

  // ---------------------------------------------------------------------------------------------
  // Rank: how many keys precede a key
  // ---------------------------------------------------------------------------------------------

  ghost function Earlier(k: Key, s: set<Key>): set<Key> {
    set l | l in s && Before(l, k)
  }

  lemma NoneBeforeFirst(f: Key, s: set<Key>)
    requires IsFirst(f, s)
    ensures Earlier(f, s) == {}
  {
    forall l | l in s
      ensures !Before(l, f)
    {
      BeforeTotal(l, f);
    }
  }

  lemma EarlierThan(k: Key, f: Key, s: set<Key>)
    requires f in s && Before(f, k)
    ensures |Earlier(k, s)| == |Earlier(k, s - {f})| + 1
  {
    assert Earlier(k, s) == Earlier(k, s - {f}) + {f};
  }

  lemma OrderedTail(s: set<Key>, i: nat)
    requires 0 < i < |s|
    ensures var f := First(s);
            Ordered(s)[i] == Ordered(s - {f})[i - 1] && Ordered(s)[i] in s - {f} && Before(f, Ordered(s)[i])
  {
    var rest := Ordered(s - {First(s)});
    assert rest[i - 1] in rest;
  }

  lemma {:induction false} RankIsIndex(s: set<Key>, i: nat)
    requires i < |s|
    ensures |Earlier(Ordered(s)[i], s)| == i
  {
    var f := First(s);
    if i == 0 {
      NoneBeforeFirst(f, s);
    } else {
      OrderedTail(s, i);
      RankIsIndex(s - {f}, i - 1);
      EarlierThan(Ordered(s)[i], f, s);
    }
  }

  /** A key never moves back when other keys leave. */
  lemma RankShrinks(k: Key, s: set<Key>, t: set<Key>)
    requires t <= s
    ensures |Earlier(k, t)| <= |Earlier(k, s)|
  {
    SubsetSize(Earlier(k, t), Earlier(k, s));
  }

  /** LIMIT n OFFSET o. */
  function Page<T>(r: seq<T>, n: nat, o: nat): (p: seq<T>)
    ensures |p| <= n
  {
    if o >= |r| then [] else r[o..Min(o + n, |r|)]
  }

  lemma PageAt<T>(r: seq<T>, n: nat, o: nat, i: nat)
    requires i < |Page(r, n, o)|
    ensures o + i < |r| && i < n && Page(r, n, o)[i] == r[o + i]
  {
  }

  /** Every key sits at its rank. */
  ghost predicate Ranked(r: seq<Key>, s: set<Key>) {
    forall i | 0 <= i < |r| :: r[i] in s && |Earlier(r[i], s)| == i
  }

  lemma OrderedRanked(s: set<Key>)
    ensures Ranked(Ordered(s), s)
  {
    var r := Ordered(s);
    forall i | 0 <= i < |r|
      ensures r[i] in s && |Earlier(r[i], s)| == i
    {
      assert r[i] in r;
      RankIsIndex(s, i);
    }
  }

  lemma RankedPage(r: seq<Key>, s: set<Key>, n: nat, o: nat, i: nat)
    requires Ranked(r, s) && i < |Page(r, n, o)|
    ensures Page(r, n, o)[i] in s && o <= |Earlier(Page(r, n, o)[i], s)| < o + n
  {
    PageAt(r, n, o, i);
  }

  /** A key on the page at offset o has rank in [o, o + n). */
  lemma PageRank(s: set<Key>, n: nat, o: nat, i: nat)
    requires i < |Page(Ordered(s), n, o)|
    ensures o <= |Earlier(Page(Ordered(s), n, o)[i], s)| < o + n
    ensures Page(Ordered(s), n, o)[i] in s
  {
    OrderedRanked(s);
    RankedPage(Ordered(s), s, n, o, i);
  }

  lemma RankedDistinct(r: seq<Key>, s: set<Key>, n: nat, o: nat)
    requires Ranked(r, s)
    ensures forall i, j | 0 <= i < j < |Page(r, n, o)| :: Page(r, n, o)[i] != Page(r, n, o)[j]
  {
    forall i, j | 0 <= i < j < |Page(r, n, o)|
      ensures Page(r, n, o)[i] != Page(r, n, o)[j]
    {
      PageAt(r, n, o, i);
      PageAt(r, n, o, j);
    }
  }

  /** Where page i begins. */
  function Start(n: nat, i: nat): nat {
    n * i
  }

  function Pages<T>(r: seq<T>, n: nat, count: nat): seq<T> {
    if count == 0 then [] else Pages(r, n, count - 1) + Page(r, n, Start(n, count - 1))
  }

  lemma PageTiles<T>(r: seq<T>, n: nat, o: nat)
    ensures r[..Min(o, |r|)] + Page(r, n, o) == r[..Min(o + n, |r|)]
  {
  }

  /** Reading a frozen listing page by page yields exactly the listing. */
  lemma {:induction false} PagesTile<T>(r: seq<T>, n: nat, count: nat)
    requires n >= 1
    ensures Pages(r, n, count) == r[..Min(Start(n, count), |r|)]
  {
    if count == 0 {
    } else {
      PagesTile(r, n, count - 1);
      PageTiles(r, n, Start(n, count - 1));
      assert Start(n, count) == Start(n, count - 1) + n;
    }
  }
}
