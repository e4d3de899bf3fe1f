/** Path containment of the blob store (internal/storage/local.go).

    The store compares cleaned path strings byte by byte.  This module shows what that comparison
    means for the directory tree: the byte test is exactly a test on path components, for every root
    and every request, and it says for which roots it keeps requests inside and finds saved files again. */
module Paths {
  import opened Basics
  import opened Wrappers

  datatype Error = EscapesRoot

  /** A cleaned path: whether it starts at the file-system root, and the names to follow from there. */
  datatype Path = Path(rooted: bool, names: seq<string>)

  // ---------------------------------------------------------------------------------------------
  // Strings and components
  // ---------------------------------------------------------------------------------------------

  function Split(s: string): (parts: seq<string>)
    ensures |parts| >= 1
    ensures forall i :: 0 <= i < |parts| ==> '/' !in parts[i]
  {
    if s == "" then [""]
    else Prepend(s[0], Split(s[1..]))
  }

  function Prepend(c: char, parts: seq<string>): (r: seq<string>)
    requires |parts| >= 1
    ensures |r| >= 1
  {
    if c == '/' then [""] + parts else [[c] + parts[0]] + parts[1..]
  }

  lemma PrependConcat(c: char, a: seq<string>, b: seq<string>)
    requires |a| >= 1
    ensures Prepend(c, a + b) == Prepend(c, a) + b
  {
    assert (a + b)[1..] == a[1..] + b;
  }

  function Joined(parts: seq<string>): string {
    if |parts| == 0 then ""
    else if |parts| == 1 then parts[0]
    else parts[0] + "/" + Joined(parts[1..])
  }

  ghost predicate Unslashed(parts: seq<string>) {
    forall i :: 0 <= i < |parts| ==> '/' !in parts[i]
  }

  lemma {:induction false} SplitOne(s: string)
    requires '/' !in s
    ensures Split(s) == [s]
  {
    if s == "" {
    } else {
      SplitOne(s[1..]);
      assert s[0] in s;
      assert [s[0]] + s[1..] == s;
    }
  }

  /** A slash between two strings is a boundary between their components. */
  lemma {:induction false} SplitAtSlash(a: string, b: string)
    ensures Split(a + "/" + b) == Split(a) + Split(b)
  {
    var s := a + "/" + b;
    if a == "" {
      assert s[1..] == b;
    } else {
      SplitAtSlash(a[1..], b);
      assert s[1..] == a[1..] + "/" + b && s[0] == a[0];
      PrependConcat(a[0], Split(a[1..]), Split(b));
    }
  }

  /** Joining and splitting are inverse on component lists. */
  lemma {:induction false} SplitJoined(parts: seq<string>)
    requires parts != [] && Unslashed(parts)
    ensures Split(Joined(parts)) == parts
  {
    SplitOne(parts[0]);
    if |parts| == 1 {
      assert parts == [parts[0]];
    } else {
      SplitJoined(parts[1..]);
      SplitAtSlash(parts[0], Joined(parts[1..]));
      assert [parts[0]] + parts[1..] == parts;
    }
  }

  /** Splitting takes a path apart at its slashes: joining the parts gives it back. */
  lemma {:induction false} JoinedSplit(s: string)
    ensures Joined(Split(s)) == s
  {
    if s == "" {
    } else {
      var parts := Split(s[1..]);
      JoinedSplit(s[1..]);
      assert [s[0]] + s[1..] == s;
      if s[0] == '/' {
        assert ([""] + parts)[1..] == parts;
      } else {
        assert ([[s[0]] + parts[0]] + parts[1..])[1..] == parts[1..];
      }
    }
  }

  lemma {:induction false} JoinedConcat(a: seq<string>, b: seq<string>)
    requires a != [] && b != []
    ensures Joined(a + b) == Joined(a) + "/" + Joined(b)
  {
    var ab := a + b;
    if |a| == 1 {
      assert ab[1..] == b;
    } else {
      assert ab[1..] == a[1..] + b;
      JoinedConcat(a[1..], b);
    }
  }

  // ---------------------------------------------------------------------------------------------
  // filepath.Clean and filepath.Join, by components
  // ---------------------------------------------------------------------------------------------

  function Step(rooted: bool, at: seq<string>, part: string): seq<string> {
    if part == "" || part == "." then at
    else if part != ".." then at + [part]
    else if at != [] && at[|at| - 1] != ".." then at[..|at| - 1]
    else if rooted then at
    else at + [part]
  }

  function Walk(rooted: bool, at: seq<string>, parts: seq<string>): seq<string>
    decreases |parts|
  {
    if parts == [] then at else Walk(rooted, Step(rooted, at, parts[0]), parts[1..])
  }

  function Cleaned(s: string): Path {
    if s == "" then Path(false, [])
    else Path(s[0] == '/', Walk(s[0] == '/', [], Split(s)))
  }

  function Shown(p: Path): string {
    if p.names == [] then (if p.rooted then "/" else ".")
    else (if p.rooted then "/" else "") + Joined(p.names)
  }

  function Clean(s: string): string {
    Shown(Cleaned(s))
  }

  function Join(a: string, b: string): string {
    if a == "" && b == "" then ""
    else if a == "" then Clean(b)
    else Clean(a + "/" + b)
  }

  /** What a cleaned path looks like: no empty or "." names, and ".." only in front of a relative path. */
  ghost predicate Normal(p: Path) {
    && (forall i :: 0 <= i < |p.names| ==> p.names[i] != "" && p.names[i] != "." && '/' !in p.names[i])
    && (forall i, j :: 0 <= i <= j < |p.names| && p.names[j] == ".." ==> !p.rooted && p.names[i] == "..")
  }

  lemma {:induction false} WalkNormal(rooted: bool, at: seq<string>, parts: seq<string>)
    requires Normal(Path(rooted, at)) && Unslashed(parts)
    ensures Normal(Path(rooted, Walk(rooted, at, parts)))
    decreases |parts|
  {
    if parts == [] {
    } else {
      WalkNormal(rooted, Step(rooted, at, parts[0]), parts[1..]);
    }
  }

  lemma CleanedNormal(s: string)
    ensures Normal(Cleaned(s))
  {
    if s != "" {
      WalkNormal(s[0] == '/', [], Split(s));
    }
  }

  lemma {:induction false} WalkConcat(rooted: bool, at: seq<string>, a: seq<string>, b: seq<string>)
    ensures Walk(rooted, at, a + b) == Walk(rooted, Walk(rooted, at, a), b)
    decreases |a|
  {
    if a == [] {
      assert a + b == b;
    } else {
      assert (a + b)[1..] == a[1..] + b;
      WalkConcat(rooted, Step(rooted, at, a[0]), a[1..], b);
    }
  }

  /** Walking along names that are already normal only appends them. */
  lemma {:induction false} WalkAppends(rooted: bool, at: seq<string>, names: seq<string>)
    requires Normal(Path(rooted, at + names))
    ensures Walk(rooted, at, names) == at + names
    decreases |names|
  {
    if names == [] {
      assert at + names == at;
    } else {
      var all := at + names;
      assert all[|at|] == names[0];
      assert names[0] == ".." && at != [] ==> all[|at| - 1] == "..";
      assert (at + [names[0]]) + names[1..] == all;
      WalkAppends(rooted, at + [names[0]], names[1..]);
    }
  }

  /** The components a cleaned path's string splits into. */
  function Strokes(p: Path): seq<string> {
    if p.names == [] then (if p.rooted then ["", ""] else ["."])
    else if p.rooted then [""] + p.names
    else p.names
  }

  lemma ShownStrokes(p: Path)
    requires Normal(p)
    ensures Shown(p) == Joined(Strokes(p)) && Split(Shown(p)) == Strokes(p)
  {
    if p.rooted && p.names != [] {
      JoinedConcat([""], p.names);
      assert Joined([""]) + "/" + Joined(p.names) == "/" + Joined(p.names);
    }
    SplitJoined(Strokes(p));
  }

  /** The first byte of a cleaned path tells whether it is rooted. */
  lemma ShownRooted(p: Path)
    requires Normal(p)
    ensures Shown(p) != "" && (Shown(p)[0] == '/' <==> p.rooted)
  {
    if p.names != [] {
      assert p.names[0] != "" && p.names[0][0] in p.names[0];
      assert |p.names| > 1 ==> Joined(p.names) == p.names[0] + ("/" + Joined(p.names[1..]));
      assert Joined(p.names) != "" && Joined(p.names)[0] == p.names[0][0];
    }
  }

  /** Cleaning a rendered clean path gives the path back, so Clean is idempotent. */
  lemma CleanedShown(p: Path)
    requires Normal(p)
    ensures Cleaned(Shown(p)) == p
  {
    ShownStrokes(p);
    ShownRooted(p);
    var names := p.names;
    assert [] + names == names;
    WalkAppends(p.rooted, [], names);
    if names != [] && p.rooted {
      WalkConcat(true, [], [""], names);
      assert Walk(true, [], [""]) == [];
    }
  }

  lemma CleanIdempotent(s: string)
    ensures Clean(Clean(s)) == Clean(s)
  {
    CleanedNormal(s);
    CleanedShown(Cleaned(s));
  }

  /** Cleaning, element by element: a path of one element; a further element is appended, an empty one or "."
      dropped, and ".." takes the last name away, unless there is none or it is ".." itself: then it stays at
      the front of a relative path and is dropped at the file-system root. */
  lemma CleanRules(p: string, e: string)
    requires '/' !in e
    ensures Cleaned(e) == Path(false, if e == "" || e == "." then [] else [e])
    ensures Cleaned("/" + e) == Path(true, if e == "" || e == "." || e == ".." then [] else [e])
    ensures p != "" ==>
              && var c := Cleaned(p);
              && var last := if c.names == [] then "" else c.names[|c.names| - 1];
              && Cleaned(p + "/" + e)
                 == if e == "" || e == "." then c
                    else if e != ".." || (last == "" && !c.rooted) || last == ".."
                    then Path(c.rooted, c.names + [e])
                    else if last == "" then c
                    else Path(c.rooted, c.names[..|c.names| - 1])
  {
    SplitOne(e);
    assert "/" + e == "" + "/" + e;
    SplitAtSlash("", e);
    assert Walk(false, [], [e]) == Step(false, [], e);
    assert Walk(true, [], [e]) == Step(true, [], e);
    assert Walk(true, [], [""] + [e]) == Walk(true, [], [e]);
    assert e != "" ==> e[0] in e;
    if p != "" {
      SplitAtSlash(p, e);
      CleanedNormal(p);
      assert (p + "/" + e)[0] == p[0];
      WalkConcat(p[0] == '/', [], Split(p), [e]);
      var at := Cleaned(p).names;
      assert Walk(p[0] == '/', at, [e]) == Step(p[0] == '/', at, e);
    }
  }

  lemma JoinFromNothing(rel: string)
    ensures Cleaned(Join("", rel)) == Cleaned(rel)
  {
    CleanedNormal(rel);
    CleanedShown(Cleaned(rel));
  }

  /** Joining a request onto a non-empty root is walking the request's parts from the cleaned root. */
  lemma JoinWalks(root: string, rel: string)
    requires root != ""
    ensures var r := Cleaned(root);
            Cleaned(Join(root, rel)) == Path(r.rooted, Walk(r.rooted, r.names, Split(rel)))
  {
    var s := root + "/" + rel;
    CleanedNormal(s);
    CleanedShown(Cleaned(s));
    SplitAtSlash(root, rel);
    WalkConcat(root[0] == '/', [], Split(root), Split(rel));
    assert s[0] == root[0];
  }

  // ---------------------------------------------------------------------------------------------
  // resolve and hasPrefixDir
  // ---------------------------------------------------------------------------------------------

  predicate HasPrefixDir(path: string, root: string) {
    if |path| <= |root| then false
    else path[..|root|] == root && path[|root|] == '/'
  }

  function Resolve(root: string, rel: string): Result<string, Error> {
    var clean := Clean(Join(root, rel));
    var top := Clean(root);
    if clean != top && !HasPrefixDir(clean, top) then Err(EscapesRoot) else Ok(clean)
  }

  /** The byte-prefix test in the other form: the path is the root, a slash, and something more. */
  lemma PrefixDirIsSlash(path: string, root: string)
    ensures HasPrefixDir(path, root) ==> path == root + "/" + path[|root| + 1..]
    ensures forall rest :: path == root + "/" + rest ==> HasPrefixDir(path, root)
  {
    forall rest | path == root + "/" + rest ensures HasPrefixDir(path, root) {
      assert path[..|root|] == root;
    }
  }

  lemma BelowFromStrokes(p: Path, r: Path, more: seq<string>)
    requires Normal(p) && Normal(r) && p.rooted == r.rooted
    requires more != [] && Strokes(p) == Strokes(r) + more
    ensures r.names != [] && r.names < p.names
  {
    assert Strokes(p)[0] == Strokes(r)[0];
    assert |Strokes(p)| == |Strokes(r)| + |more|;
    assert |Strokes(r)| > 1 ==> Strokes(p)[1] == Strokes(r)[1];
    if p.rooted {
      assert p.names != [] ==> Strokes(p)[1] == p.names[0];
      assert p.names == Strokes(p)[1..] == Strokes(r)[1..] + more;
    }
  }

  lemma BelowOnlyIf(p: Path, r: Path)
    requires Normal(p) && Normal(r) && HasPrefixDir(Shown(p), Shown(r))
    ensures r.names != [] && p.rooted == r.rooted && r.names < p.names
  {
    var a, b := Shown(p), Shown(r);
    var rest := a[|b| + 1..];
    PrefixDirIsSlash(a, b);
    SplitAtSlash(b, rest);
    ShownStrokes(p);
    ShownStrokes(r);
    ShownRooted(p);
    ShownRooted(r);
    assert a[0] == b[0];
    BelowFromStrokes(p, r, Split(rest));
  }

  lemma BelowIf(p: Path, r: Path)
    requires Normal(p) && Normal(r) && r.names != [] && p.rooted == r.rooted && r.names < p.names
    ensures HasPrefixDir(Shown(p), Shown(r))
  {
    var more := p.names[|r.names|..];
    assert p.names == r.names + more;
    assert Strokes(p) == Strokes(r) + more;
    ShownStrokes(p);
    ShownStrokes(r);
    JoinedConcat(Strokes(r), more);
    PrefixDirIsSlash(Shown(p), Shown(r));
  }

  /** The byte-prefix test means "strictly below" in the tree, except below "/" and ".", where it never holds. */
  lemma PrefixDirIsBelow(p: Path, r: Path)
    requires Normal(p) && Normal(r)
    ensures HasPrefixDir(Shown(p), Shown(r)) <==>
            r.names != [] && p.rooted == r.rooted && r.names < p.names
  {
    if HasPrefixDir(Shown(p), Shown(r)) {
      BelowOnlyIf(p, r);
    }
    if r.names != [] && p.rooted == r.rooted && r.names < p.names {
      BelowIf(p, r);
    }
  }

  /** The exact meaning of resolve, for every root and every request: it accepts when the cleaned join is
      the root itself or, unless the root cleans to "/" or ".", when its names start with the root's names. */
  lemma ResolveExact(root: string, rel: string)
    ensures var c, r := Cleaned(Join(root, rel)), Cleaned(root);
            && (Resolve(root, rel).Ok? <==>
                c == r || (r.names != [] && c.rooted == r.rooted && r.names <= c.names))
            && (Resolve(root, rel).Ok? ==> Cleaned(Resolve(root, rel).value) == c)
  {
    var c, r := Cleaned(Join(root, rel)), Cleaned(root);
    CleanedNormal(Join(root, rel));
    CleanedNormal(root);
    CleanedShown(c);
    CleanedShown(r);
    PrefixDirIsBelow(c, r);
    if r.names <= c.names && !(r.names < c.names) {
      assert r.names == c.names;
    }
  }

  // ---------------------------------------------------------------------------------------------
  // Containment
  // ---------------------------------------------------------------------------------------------

  /** Every request that resolve accepts stays below the root: what follows the root's names never goes up. */
  ghost predicate Contained(root: string, rel: string) {
    var c, r := Cleaned(Join(root, rel)), Cleaned(root);
    Resolve(root, rel).Ok? ==>
      c.rooted == r.rooted && r.names <= c.names && ".." !in c.names[|r.names|..]
  }

  lemma ContainedBelowProperRoot(root: string, rel: string)
    requires var r := Cleaned(root); r.names == [] || r.names[|r.names| - 1] != ".."
    ensures Contained(root, rel)
  {
    var c, r := Cleaned(Join(root, rel)), Cleaned(root);
    ResolveExact(root, rel);
    CleanedNormal(Join(root, rel));
    if Resolve(root, rel).Ok? && r.names != [] {
      assert c.names[|r.names| - 1] == r.names[|r.names| - 1];
    }
  }

  lemma DotDotRootEscapes(root: string)
    requires var r := Cleaned(root); r.names != [] && r.names[|r.names| - 1] == ".."
    ensures Resolve(root, "..").Ok? && !Contained(root, "..")
  {
    var r := Cleaned(root);
    CleanedNormal(root);
    JoinWalks(root, "..");
    SplitOne("..");
    assert Walk(r.rooted, r.names, [".."]) == Step(r.rooted, r.names, "..");
    ResolveExact(root, "..");
    var c := Cleaned(Join(root, ".."));
    assert c.names == r.names + [".."];
    assert c.names[|r.names|..] == [".."];
  }

  /** Containment holds for all requests exactly when the cleaned root does not end in "..". */
  lemma ContainedExactly(root: string)
    ensures var r := Cleaned(root);
            (forall rel :: Contained(root, rel)) <==> r.names == [] || r.names[|r.names| - 1] != ".."
  {
    var r := Cleaned(root);
    if r.names == [] || r.names[|r.names| - 1] != ".." {
      forall rel ensures Contained(root, rel) {
        ContainedBelowProperRoot(root, rel);
      }
    } else {
      DotDotRootEscapes(root);
    }
  }

  // ---------------------------------------------------------------------------------------------
  // The path that Save returns
  // ---------------------------------------------------------------------------------------------

  predicate Plain(name: string) {
    name != "" && name != "." && name != ".." && '/' !in name
  }

  /** Where Save puts a file: the day's directory below the root, then the file's name. */
  function Final(root: string, year: string, month: string, day: string, file: string): string {
    Join(Join(root, year + "/" + month + "/" + day), file)
  }

  /** filepath.Rel for a target strictly below the base; its other answers do not arise in Save. */
  function Rel(base: string, target: string): Option<string> {
    var b, t := Cleaned(base), Cleaned(target);
    if b.rooted == t.rooted && b.names < t.names then Some(Joined(t.names[|b.names|..])) else None
  }

  lemma {:induction false} WalkPlain(rooted: bool, at: seq<string>, names: seq<string>)
    requires forall i :: 0 <= i < |names| ==> Plain(names[i])
    ensures Walk(rooted, at, names) == at + names
    decreases |names|
  {
    if names == [] {
      assert at + names == at;
    } else {
      WalkPlain(rooted, at + [names[0]], names[1..]);
      assert (at + [names[0]]) + names[1..] == at + names;
    }
  }

  lemma JoinedPlain(names: seq<string>)
    requires names != [] && forall i :: 0 <= i < |names| ==> Plain(names[i])
    ensures Joined(names) != "" && Joined(names)[0] != '/'
  {
    assert names[0][0] in names[0];
    if |names| > 1 {
      var rest := Joined(names[1..]);
      assert Joined(names) == names[0] + "/" + rest;
      hide Joined;
      ConcatAssociates(names[0], "/", rest);
      ConcatParts(names[0], "/" + rest);
    }
  }

  /** Joining plain names onto any root appends them to the cleaned root. */
  lemma JoinPlain(root: string, names: seq<string>)
    requires names != [] && forall i :: 0 <= i < |names| ==> Plain(names[i])
    ensures var p := Path(Cleaned(root).rooted, Cleaned(root).names + names);
            Join(root, Joined(names)) == Shown(p) && Cleaned(Join(root, Joined(names))) == p
  {
    var s := Joined(names);
    SplitJoined(names);
    JoinedPlain(names);
    WalkPlain(Cleaned(root).rooted, Cleaned(root).names, names);
    if root == "" {
      CleanedNormal(s);
      CleanedShown(Cleaned(s));
    } else {
      JoinWalks(root, s);
      CleanedNormal(root + "/" + s);
      CleanedShown(Cleaned(root + "/" + s));
    }
  }

  lemma FinalPath(root: string, year: string, month: string, day: string, file: string)
    requires Plain(year) && Plain(month) && Plain(day) && Plain(file)
    ensures var r := Cleaned(root);
            && Cleaned(Final(root, year, month, day, file)) == Path(r.rooted, r.names + [year, month, day, file])
            && Final(root, year, month, day, file) == Shown(Path(r.rooted, r.names + [year, month, day, file]))
  {
    var r := Cleaned(root);
    var ymd := [year, month, day];
    JoinedConcat([year, month], [day]);
    JoinedConcat([year], [month]);
    assert [year, month] + [day] == ymd && [year] + [month] == [year, month];
    JoinPlain(root, ymd);
    var dir := Join(root, Joined(ymd));
    assert Joined([file]) == file;
    JoinPlain(dir, [file]);
    assert (r.names + ymd) + [file] == r.names + [year, month, day, file];
  }

  lemma JoinedDay(year: string, month: string, day: string, file: string)
    ensures Joined([year, month, day, file]) == year + "/" + month + "/" + day + "/" + file
  {
    JoinedConcat([year, month, day], [file]);
    JoinedConcat([year, month], [day]);
    JoinedConcat([year], [month]);
    assert [year, month, day] + [file] == [year, month, day, file];
    assert [year, month] + [day] == [year, month, day] && [year] + [month] == [year, month];
  }

  /** Every path that Save returns resolves to the very file Save created, exactly when the root does not
      clean to "/" or "."; below those two roots every saved file is refused. */
  lemma SavedResolvesExactly(root: string, year: string, month: string, day: string, file: string)
    requires Plain(year) && Plain(month) && Plain(day) && Plain(file)
    ensures var final := Final(root, year, month, day, file);
            && Rel(root, final) == Some(year + "/" + month + "/" + day + "/" + file)
            && Resolve(root, Rel(root, final).value) ==
               (if Cleaned(root).names != [] then Ok(final) else Err(EscapesRoot))
  {
    var r := Cleaned(root);
    var names := [year, month, day, file];
    var final := Final(root, year, month, day, file);
    FinalPath(root, year, month, day, file);
    assert Cleaned(final).names[|r.names|..] == names;
    assert |Cleaned(final).names| == |r.names| + 4;
    assert r.names < Cleaned(final).names;
    var rel := Rel(root, final).value;
    assert rel == Joined(names);
    JoinedDay(year, month, day, file);
    JoinPlain(root, names);
    assert Join(root, rel) == final;
    ResolveExact(root, rel);
    CleanedNormal(final);
    CleanIdempotent(if root == "" then rel else root + "/" + rel);
  }
}
