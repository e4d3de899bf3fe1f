/** Arithmetic and set facts, and the clock's second, shared by the other modules. */
module Basics {
  const SECOND: int := 1_000_000_000

  /** time.Unix(): whole seconds, rounded down, of a time in nanoseconds. */
  function Unix(t: int): int {
    t / SECOND
  }

  function Min(a: int, b: int): int {
    if a < b then a else b
  }

  function Max(a: int, b: int): int {
    if a < b then b else a
  }

  lemma ConcatAssociates<T>(a: seq<T>, b: seq<T>, c: seq<T>)
    ensures (a + b) + c == a + (b + c)
  {
  }

  /** The parts of a concatenation are where they were put. */
  lemma ConcatParts<T>(a: seq<T>, b: seq<T>)
    ensures (a + b)[..|a|] == a && (a + b)[|a|..] == b
    ensures forall i | 0 <= i < |a| :: (a + b)[i] == a[i]
  {
  }

  lemma {:induction false} SubsetSize<T>(a: set<T>, b: set<T>)
    requires a <= b
    ensures |a| <= |b|
  {
    if a == {} {
    } else {
      var x :| x in a;
      SubsetSize(a - {x}, b - {x});
    }
  }
}
