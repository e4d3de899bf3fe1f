/** The document entity, its errors and its metadata rules. */
module Documents {
  import opened Basics
  import opened Search

  datatype Status = Pending | Ready | Failed

  /** Times are in nanoseconds. */
  datatype Document = Document(
    id: string, title: string, summary: string, fileName: string, filePath: string, mimeType: string,
    sizeBytes: nat, checksum: string, status: Status, createdBy: string, createdAt: int, updatedAt: int)

  datatype Error = NotFound | Invalid | TooLarge | Internal

  /** The table keeps times in whole seconds, rounded down. */
  function Seconds(t: int): int {
    Unix(t) * SECOND
  }

  function Stored(d: Document): Document {
    d.(createdAt := Seconds(d.createdAt), updatedAt := Seconds(d.updatedAt))
  }

  function WithoutSlashes(name: string): string {
    if name != "" && name[|name| - 1] == '/' then WithoutSlashes(name[..|name| - 1]) else name
  }

  function AfterSlash(name: string): string {
    if name == "" || name[|name| - 1] == '/' then "" else AfterSlash(name[..|name| - 1]) + [name[|name| - 1]]
  }

  /** filepath.Base: the last element of a path. */
  function Base(name: string): string {
    if name == "" then "."
    else if WithoutSlashes(name) == "" then "/" else AfterSlash(WithoutSlashes(name))
  }

  function Slashes(n: nat): string {
    if n == 0 then "" else Slashes(n - 1) + "/"
  }

  lemma {:induction false} SlashesDropped(s: string, n: nat)
    requires s == "" || s[|s| - 1] != '/'
    ensures WithoutSlashes(s + Slashes(n)) == s
  {
    if n == 0 {
      assert s + Slashes(n) == s;
    } else {
      SlashesDropped(s, n - 1);
      assert (s + Slashes(n))[..|s + Slashes(n)| - 1] == s + Slashes(n - 1);
    }
  }

  lemma OneMoreAfterSlash(s: string, c: char)
    requires c != '/'
    ensures AfterSlash(s + [c]) == AfterSlash(s) + [c]
  {
    ConcatParts(s, [c]);
  }

  lemma {:induction false} ElementAfterSlash(before: string, e: string)
    requires '/' !in e && (before == "" || before[|before| - 1] == '/')
    ensures AfterSlash(before + e) == e
  {
    if e == "" {
      assert before + e == before;
    } else {
      var init, c := e[..|e| - 1], e[|e| - 1];
      assert init + [c] == e;
      ElementAfterSlash(before, init);
      ConcatAssociates(before, init, [c]);
      OneMoreAfterSlash(before + init, c);
    }
  }

  /** Of directories, an element and trailing slashes, only the element is left; of slashes alone, one. */
  lemma BaseExact(before: string, e: string, n: nat)
    requires e != "" && '/' !in e && (before == "" || before[|before| - 1] == '/')
    ensures Base(before + e + Slashes(n)) == e
    ensures Base(Slashes(n)) == if n == 0 then "." else "/"
  {
    assert e[|e| - 1] in e && (before + e)[|before + e| - 1] == e[|e| - 1];
    SlashesDropped(before + e, n);
    ElementAfterSlash(before, e);
    SlashesDropped("", n);
    assert "" + Slashes(n) == Slashes(n);
  }

  predicate ValidMeta(title: string, summary: string) {
    0 < |Trim(title)| <= 200 && |summary| <= 5000
  }

  /** An empty owner is the system itself and passes every check. */
  predicate Owns(d: Document, owner: string) {
    owner == "" || d.createdBy == owner
  }
}
