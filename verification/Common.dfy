/** Small datatypes and sequence facts shared by the other modules. */
module Common {

  datatype Option<+T> = None | Some(value: T)

  /** Result of an operation that raises an exception in the Python program. */
  datatype Result<+T> = Ok(value: T) | Error(message: string)

  function Max(a: int, b: int): int {
    if a >= b then a else b
  }

  function Min(a: int, b: int): int {
    if a <= b then a else b
  }

  /** The first `topK` elements, but one at least: what a loop keeps that appends before it compares. */
  function FirstOf<T>(xs: seq<T>, topK: int): seq<T> {
    xs[..Min(Max(1, topK), |xs|)]
  }

  lemma FirstOfFull<T>(chosen: seq<T>, later: seq<T>, topK: int)
    requires |chosen| == Max(1, topK)
    ensures FirstOf(chosen + later, topK) == chosen
  {
  }

  lemma Associates<T>(a: seq<T>, b: seq<T>, c: seq<T>)
    ensures a + (b + c) == a + b + c
  {
  }

  /** Two ways to cut the same sequence in two, the first of them no later. */
  lemma CutEarlier<T>(p: seq<T>, q: seq<T>, x: seq<T>, y: seq<T>)
    requires p + q == x + y && |p| <= |x|
    ensures x == p + x[|p|..] && q == x[|p|..] + y
  {
    assert x == (x + y)[..|x|] && p == (p + q)[..|p|];
    assert q == (p + q)[|p|..] && (x + y)[|p|..] == x[|p|..] + y;
  }

  /** Where the first cut comes later, it straddles the second. */
  lemma CutLater<T>(p: seq<T>, q: seq<T>, x: seq<T>, y: seq<T>)
    requires p + q == x + y && 0 < |x| < |p|
    ensures y != [] && p[|x| - 1] == x[|x| - 1] && p[|x|] == y[0]
  {
    assert (p + q)[|x| - 1] == (x + y)[|x| - 1];
    assert (p + q)[|x|] == (x + y)[|x|];
  }

  lemma InConcat<T>(a: seq<T>, b: seq<T>, x: T)
    ensures x in a + b <==> x in a || x in b
  {
  }

  lemma SliceOfSlice<T>(s: seq<T>, from: nat, to: nat)
    requires from <= to <= |s|
    ensures s[..to][..from] == s[..from] && s[..to][from..] == s[from..to]
  {
  }
}
