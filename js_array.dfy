/** The three array writes and the one search the page performs on its lists. */
module JsArray {

  /**
   * `a[i] = v` on a copy of `a`, for an index inside the array or just past its end
   * (the latter grows the array by one, like `push`).
   */
  function SetIndex<T>(a: seq<T>, i: nat, v: T): (r: seq<T>)
    requires i <= |a|
    ensures |r| == if i < |a| then |a| else |a| + 1
    ensures r[i] == v
    ensures forall j :: 0 <= j < |a| && j != i ==> r[j] == a[j]
  {
    if i < |a| then a[i := v] else a + [v]
  }

  /**
   * Where `a.splice(start, 1)` starts: a negative start counts back from the end
   * (clamped at 0), a start past the end is clamped to the length.
   */
  function SpliceStart(len: nat, start: int): (k: nat)
    ensures k <= len
    ensures 0 <= start <= len ==> k == start
    ensures start > len ==> k == len
    ensures start < 0 && len + start >= 0 ==> k == len + start
    ensures len + start < 0 ==> k == 0
  {
    if start < 0 then (if len + start < 0 then 0 else len + start)
    else if start < len then start
    else len
  }

  /** `a.splice(start, 1)` on a copy of `a`: at most one element goes, the rest keep their order. */
  function Splice<T>(a: seq<T>, start: int): (r: seq<T>)
    ensures |r| == if a != [] && start < |a| then |a| - 1 else |a|
    ensures forall j :: 0 <= j < |r| ==>
              r[j] == a[if j < SpliceStart(|a|, start) then j else j + 1]
    ensures multiset(r) <= multiset(a)
  {
    var k := SpliceStart(|a|, start);
    if k < |a| then
      assert a == a[..k] + [a[k]] + a[k + 1..];
      a[..k] + a[k + 1..]
    else a
  }

  /**
   * `a.findIndex(y => y === x)`: the first position holding `x`, or -1 when there is none.
   */
  function FindIndex<T(==)>(a: seq<T>, x: T): (i: int)
    ensures -1 <= i < |a|
    ensures i == -1 <==> x !in a
    ensures 0 <= i ==> a[i] == x && x !in a[..i]
  {
    if a == [] then -1
    else if a[0] == x then 0
    else
      var i := FindIndex(a[1..], x);
      if i == -1 then -1
      else
        assert a[..i + 1] == [a[0]] + a[1..][..i];
        i + 1
  }
}
