/**
 * Python's sequence indexing and slicing, written out.
 *
 * Python accepts negative indices (counted from the end) and clamps slice
 * bounds to the sequence; an out-of-range subscript raises IndexError. The
 * modelled code relies on both behaviours, so they are made explicit here
 * instead of being replaced by Dafny's partial `s[i]` and `s[i..j]`.
 */
module PySeq {

  datatype Option<+T> = None | Some(value: T)

  /** The position a Python slice bound `i` denotes in a sequence of length `n`. */
  function Clamp(i: int, n: nat): (r: nat)
    ensures r <= n
  {
    if i < 0 then (if n + i < 0 then 0 else n + i)
    else if i > n then n
    else i
  }

  /** `s[i:j]` in Python. */
  function Slice<T>(s: seq<T>, i: int, j: int): (r: seq<T>)
    ensures 0 <= i <= j <= |s| ==> r == s[i..j]
    ensures |r| <= |s|
  {
    var a := Clamp(i, |s|);
    var b := Clamp(j, |s|);
    if a <= b then s[a..b] else []
  }

  /** `s[:j]` in Python. */
  function SliceTo<T>(s: seq<T>, j: int): (r: seq<T>)
    ensures 0 <= j <= |s| ==> r == s[..j]
    ensures j >= |s| ==> r == s
  {
    Slice(s, 0, j)
  }

  /** `s[i:]` in Python. */
  function SliceFrom<T>(s: seq<T>, i: int): (r: seq<T>)
    ensures 0 <= i <= |s| ==> r == s[i..]
    ensures i >= |s| ==> r == []
  {
    Slice(s, i, |s|)
  }

  /** `s[i]` in Python: `None` stands for the IndexError it raises. */
  function Index<T>(s: seq<T>, i: int): (r: Option<T>)
    ensures r.Some? <==> -|s| <= i < |s|
    ensures 0 <= i < |s| ==> r == Some(s[i])
    ensures -|s| <= i < 0 ==> r == Some(s[|s| + i])
  {
    if 0 <= i < |s| then Some(s[i])
    else if -|s| <= i < 0 then Some(s[|s| + i])
    else None
  }

  /** Whatever the cut point, `s[:k] + s[k:]` gives back `s`. */
  lemma SliceToFromSplit<T>(s: seq<T>, k: int)
    ensures SliceTo(s, k) + SliceFrom(s, k) == s
  {
    var a := Clamp(k, |s|);
    assert SliceTo(s, k) == s[..a];
    assert SliceFrom(s, k) == s[a..];
  }
}
