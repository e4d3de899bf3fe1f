/** The text search: LIKE with an escape character, and the escaping that makes it a substring test. */
module Search {
  import opened Basics

  const ESC: char := '\\'

  /** ASCII lower case, all the case folding LIKE does. */
  function Fold(c: char): char {
    if 'A' <= c <= 'Z' then (c as int + 32) as char else c
  }

  /** Two characters fold to the same one exactly when they are equal, or the two cases of one ASCII letter. */
  lemma FoldExact(a: char, b: char)
    ensures Fold(a) == Fold(b)
       <==> a == b || ('A' <= a <= 'Z' && b as int == a as int + 32) || ('A' <= b <= 'Z' && a as int == b as int + 32)
  {
  }

  /** x LIKE p ESCAPE '\' */
  predicate Like(p: string, x: string)
    decreases |p| + |x|
  {
    if p == [] then x == []
    else if p[0] == '%' then Like(p[1..], x) || (x != [] && Like(p, x[1..]))
    else if p[0] == '_' then x != [] && Like(p[1..], x[1..])
    else if p[0] == ESC then |p| >= 2 && x != [] && Fold(p[1]) == Fold(x[0]) && Like(p[2..], x[1..])
    else x != [] && Fold(p[0]) == Fold(x[0]) && Like(p[1..], x[1..])
  }

  predicate IsWild(c: char) {
    c == ESC || c == '%' || c == '_'
  }

  function EscapeLike(q: string): string {
    if q == [] then []
    else (if IsWild(q[0]) then [ESC, q[0]] else [q[0]]) + EscapeLike(q[1..])
  }

  /** The pattern bound for a trimmed query. */
  function Pattern(q: string): string {
    "%" + EscapeLike(q) + "%"
  }

  predicate SameFolded(a: string, b: string) {
    |a| == |b| && forall i | 0 <= i < |a| :: Fold(a[i]) == Fold(b[i])
  }

  predicate OccursAt(q: string, x: string, i: nat) {
    i + |q| <= |x| && SameFolded(q, x[i..i + |q|])
  }

  /** q occurs in x, up to ASCII case. */
  predicate Occurs(q: string, x: string) {
    exists i | 0 <= i <= |x| :: OccursAt(q, x, i)
  }

  predicate StartsWith(q: string, x: string) {
    |q| <= |x| && SameFolded(q, x[..|q|])
  }

  lemma {:induction false} AnythingMatches(x: string)
    ensures Like("%", x)
  {
    if x == [] {
    } else {
      AnythingMatches(x[1..]);
    }
  }

  lemma EscapedHead(q: string)
    requires q != []
    ensures var p := EscapeLike(q) + "%";
            if IsWild(q[0]) then p[0] == ESC && p[1] == q[0] && p[2..] == EscapeLike(q[1..]) + "%"
            else p[0] == q[0] && p[1..] == EscapeLike(q[1..]) + "%"
  {
    var head := if IsWild(q[0]) then [ESC, q[0]] else [q[0]];
    assert EscapeLike(q) == head + EscapeLike(q[1..]);
    hide EscapeLike;
    ConcatAssociates(head, EscapeLike(q[1..]), "%");
    ConcatParts(head, EscapeLike(q[1..]) + "%");
  }

  /** An escaped query followed by % matches exactly the texts that start with the query. */
  lemma {:induction false} EscapedMatchesPrefix(q: string, x: string)
    ensures Like(EscapeLike(q) + "%", x) <==> StartsWith(q, x)
  {
    if q == [] {
      AnythingMatches(x);
      assert EscapeLike(q) + "%" == "%";
    } else {
      EscapedHead(q);
      if x != [] {
        EscapedMatchesPrefix(q[1..], x[1..]);
        StartsTail(q, x);
      }
    }
  }

  lemma StartsTail(q: string, x: string)
    requires q != [] && x != []
    ensures StartsWith(q, x) <==> Fold(q[0]) == Fold(x[0]) && StartsWith(q[1..], x[1..])
  {
    if StartsWith(q[1..], x[1..]) && Fold(q[0]) == Fold(x[0]) {
      forall i | 0 <= i < |q|
        ensures Fold(q[i]) == Fold(x[..|q|][i])
      {
        if i > 0 { assert Fold(q[1..][i - 1]) == Fold(x[1..][..|q| - 1][i - 1]); }
      }
    }
    if StartsWith(q, x) {
      forall i | 0 <= i < |q| - 1
        ensures Fold(q[1..][i]) == Fold(x[1..][..|q| - 1][i])
      {
        assert Fold(q[i + 1]) == Fold(x[..|q|][i + 1]);
      }
    }
  }

  /** A leading % lets the rest of the pattern match at any position. */
  lemma {:induction false} PercentSkips(p: string, x: string)
    ensures Like("%" + p, x) <==> exists i | 0 <= i <= |x| :: Like(p, x[i..])
  {
    assert ("%" + p)[1..] == p;
    if x == [] {
      assert x[0..] == x;
    } else {
      PercentSkips(p, x[1..]);
      assert x[0..] == x;
      forall i | 1 <= i <= |x|
        ensures x[i..] == x[1..][i - 1..]
      {
      }
      if Like("%" + p, x[1..]) {
        var i :| 0 <= i <= |x[1..]| && Like(p, x[1..][i..]);
        assert Like(p, x[i + 1..]);
      }
    }
  }

  /** Search is substring search, for every query, wildcards and trailing backslashes included. */
  lemma SearchIsSubstring(q: string, x: string)
    ensures Like(Pattern(q), x) <==> Occurs(q, x)
  {
    var p := EscapeLike(q) + "%";
    assert Pattern(q) == "%" + p;
    PercentSkips(p, x);
    forall i | 0 <= i <= |x|
      ensures Like(p, x[i..]) <==> OccursAt(q, x, i)
    {
      EscapedMatchesPrefix(q, x[i..]);
      if i + |q| <= |x| { assert x[i..][..|q|] == x[i..i + |q|]; }
    }
  }

  // ---------------------------------------------------------------------------------------------
  // Trimming
  // ---------------------------------------------------------------------------------------------

  /** Unicode White_Space, as the trimming function sees it. */
  predicate IsSpace(c: char) {
    var n := c as int;
    9 <= n <= 13 || n == 0x20 || n == 0x85 || n == 0xA0 || n == 0x1680 || 0x2000 <= n <= 0x200A || n == 0x2028
    || n == 0x2029 || n == 0x202F || n == 0x205F || n == 0x3000
  }

  /** The spaces are these 25 characters. */
  lemma SpaceExact(c: char)
    ensures IsSpace(c) <==> c in "\t\n\U{0B}\U{0C}\r \U{85}\U{A0}\U{1680}\U{2000}\U{2001}\U{2002}\U{2003}"
                               + "\U{2004}\U{2005}\U{2006}\U{2007}\U{2008}\U{2009}\U{200A}"
                               + "\U{2028}\U{2029}\U{202F}\U{205F}\U{3000}"
  {
  }

  function TrimLeft(s: string): string {
    if s != [] && IsSpace(s[0]) then TrimLeft(s[1..]) else s
  }

  function TrimRight(s: string): string {
    if s != [] && IsSpace(s[|s| - 1]) then TrimRight(s[..|s| - 1]) else s
  }

  function Trim(s: string): string {
    TrimRight(TrimLeft(s))
  }

  predicate Spaces(s: string, from: int, to: int)
    requires 0 <= from <= to <= |s|
  {
    forall i | from <= i < to :: IsSpace(s[i])
  }

  /** What is around the part from i to j is space, and the part itself begins and ends with none. */
  predicate Core(s: string, i: int, j: int) {
    && 0 <= i <= j <= |s| && Spaces(s, 0, i) && Spaces(s, j, |s|)
    && (i < j ==> !IsSpace(s[i]) && !IsSpace(s[j - 1]))
  }

  lemma {:induction false} TrimLeftExact(s: string) returns (i: nat)
    ensures i <= |s| && TrimLeft(s) == s[i..] && Spaces(s, 0, i) && (i < |s| ==> !IsSpace(s[i]))
  {
    if s != [] && IsSpace(s[0]) {
      var k := TrimLeftExact(s[1..]);
      i := k + 1;
      forall x | 0 < x < i
        ensures IsSpace(s[x])
      {
        assert s[1..][x - 1] == s[x];
      }
    } else {
      i := 0;
    }
  }

  lemma {:induction false} TrimRightExact(s: string) returns (j: nat)
    ensures j <= |s| && TrimRight(s) == s[..j] && Spaces(s, j, |s|) && (j > 0 ==> !IsSpace(s[j - 1]))
  {
    var n := |s| - 1;
    if s != [] && IsSpace(s[n]) {
      j := TrimRightExact(s[..n]);
      assert s[..n][..j] == s[..j];
      forall x | j <= x < n
        ensures IsSpace(s[x])
      {
        assert s[..n][x] == s[x];
      }
    } else {
      j := |s|;
      assert s[..j] == s;
    }
  }

  /** Trimming takes the spaces off both ends, all of them and nothing else. */
  lemma TrimExact(s: string)
    ensures exists i, j :: Core(s, i, j) && Trim(s) == s[i..j]
    ensures forall i, j | Core(s, i, j) :: Trim(s) == s[i..j]
  {
    var i := TrimLeftExact(s);
    var k := TrimRightExact(s[i..]);
    var j := i + k;
    assert Spaces(s, j, |s|) by {
      forall x | j <= x < |s|
        ensures IsSpace(s[x])
      {
        assert s[i..][x - i] == s[x];
      }
    }
    assert s[i..][..k] == s[i..j];
    if k > 0 {
      assert s[i..][k - 1] == s[j - 1];
    } else {
      AllSpaces(s, i);
    }
    assert Core(s, i, j);
    forall x, y | Core(s, x, y)
      ensures s[x..y] == s[i..j]
    {
      CoreUnique(s, i, j, x, y);
    }
  }

  lemma AllSpaces(s: string, i: nat)
    requires i <= |s| && Spaces(s, i, |s|) && (i < |s| ==> !IsSpace(s[i]))
    ensures i == |s|
  {
  }

  lemma CoreUnique(s: string, i: nat, j: nat, x: nat, y: nat)
    requires Core(s, i, j) && Core(s, x, y)
    ensures s[i..j] == s[x..y]
  {
    if i < j {
      assert !(x > i) && !(y <= i);
    }
  }
}
