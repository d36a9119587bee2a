/** Predicate binary search and its two wrappers, lowerBound and upperBound
    (kiosk/js/kiosk.js lines 16-47), with linear reference definitions. */
module Search {

  /** Ascending order, duplicates allowed. */
  ghost predicate Sorted(a: seq<int>) {
    forall j, k :: 0 <= j < k < |a| ==> a[j] <= a[k]
  }

  /** `pred` is false-then-true over `a`: once it holds, it holds from there on. */
  ghost predicate Monotone<T>(a: seq<T>, pred: T -> bool) {
    forall j, k :: 0 <= j <= k < |a| && pred(a[j]) ==> pred(a[k])
  }

  /** The boundary the search promises for any predicate: the element just before `i`
      (if any) fails `pred` and the element at `i` (if any) satisfies it. */
  ghost predicate Boundary<T>(a: seq<T>, pred: T -> bool, i: int) {
    0 <= i <= |a| &&
    (i == 0 || !pred(a[i - 1])) &&
    (i == |a| || pred(a[i]))
  }

  /** `pred` fails on every element before `i` and holds on every element from `i` on. */
  ghost predicate Splits<T>(a: seq<T>, pred: T -> bool, i: int) {
    0 <= i <= |a| &&
    (forall j :: 0 <= j < i ==> !pred(a[j])) &&
    (forall j :: i <= j < |a| ==> pred(a[j]))
  }

  /** binarySearch: `lo` starts one before the array and `hi` one past it; the loop keeps
      `pred` false at `lo` and true at `hi` and halves the gap until they are adjacent. */
  method BinarySearch<T>(a: seq<T>, pred: T -> bool) returns (i: int)
    ensures Boundary(a, pred, i)
    ensures Monotone(a, pred) ==> Splits(a, pred, i)
  {
    var lo, hi := -1, |a|;
    while 1 + lo < hi
      invariant -1 <= lo < hi <= |a|
      invariant lo == -1 || !pred(a[lo])
      invariant hi == |a| || pred(a[hi])
      invariant Monotone(a, pred) ==> forall j :: 0 <= j <= lo ==> !pred(a[j])
      invariant Monotone(a, pred) ==> forall j :: hi <= j < |a| ==> pred(a[j])
      decreases hi - lo
    {
      var mi := lo + (hi - lo) / 2;
      if pred(a[mi]) {
        hi := mi;
      } else {
        lo := mi;
      }
    }
    i := hi;
  }

  /** Reference definition of lowerBound: a linear scan for the first element `>= x`. */
  function LowerIndex(a: seq<int>, x: int): (i: nat)
    ensures i <= |a|
    ensures forall j :: 0 <= j < i ==> a[j] < x
    ensures i < |a| ==> x <= a[i]
  {
    if |a| == 0 || x <= a[0] then 0 else 1 + LowerIndex(a[1..], x)
  }

  /** Reference definition of upperBound: a linear scan for the first element `> x`. */
  function UpperIndex(a: seq<int>, x: int): (i: nat)
    ensures i <= |a|
    ensures forall j :: 0 <= j < i ==> a[j] <= x
    ensures i < |a| ==> x < a[i]
  {
    if |a| == 0 || x < a[0] then 0 else 1 + UpperIndex(a[1..], x)
  }

  /** lowerBound: `a[i - 1] < x <= a[i]` for any array; on an ascending array, the first index
      whose element is at least `x`. */
  method LowerBound(a: seq<int>, x: int) returns (i: int)
    ensures 0 <= i <= |a|
    ensures (i == 0 || a[i - 1] < x) && (i == |a| || x <= a[i])
    ensures Sorted(a) ==> i == LowerIndex(a, x)
    ensures Sorted(a) ==> forall j :: i <= j < |a| ==> x <= a[j]
  {
    i := BinarySearch(a, j => x <= j);
    if Sorted(a) {
      SplitIsLowerIndex(a, x, i);
    }
  }

  /** upperBound: `a[i - 1] <= x < a[i]` for any array; on an ascending array, the first index
      whose element exceeds `x`. */
  method UpperBound(a: seq<int>, x: int) returns (i: int)
    ensures 0 <= i <= |a|
    ensures (i == 0 || a[i - 1] <= x) && (i == |a| || x < a[i])
    ensures Sorted(a) ==> i == UpperIndex(a, x)
    ensures Sorted(a) ==> forall j :: i <= j < |a| ==> x < a[j]
  {
    i := BinarySearch(a, j => x < j);
    if Sorted(a) {
      SplitIsUpperIndex(a, x, i);
    }
  }

  /** On an ascending array, the first element `>= x` follows every element `< x`. */
  lemma {:induction false} LowerIndexSplits(a: seq<int>, x: int)
    requires Sorted(a)
    ensures forall j :: LowerIndex(a, x) <= j < |a| ==> x <= a[j]
  {
    var i := LowerIndex(a, x);
    forall j | i <= j < |a| ensures x <= a[j] {
      assert a[i] <= a[j];
    }
  }

  /** On an ascending array, the first element `> x` follows every element `<= x`. */
  lemma {:induction false} UpperIndexSplits(a: seq<int>, x: int)
    requires Sorted(a)
    ensures forall j :: UpperIndex(a, x) <= j < |a| ==> x < a[j]
  {
    var i := UpperIndex(a, x);
    forall j | i <= j < |a| ensures x < a[j] {
      assert a[i] <= a[j];
    }
  }

  /** Any split point of `j >= x` is the linear scan's answer: the split point is unique. */
  lemma {:induction false} SplitIsLowerIndex(a: seq<int>, x: int, i: int)
    requires Splits(a, j => x <= j, i)
    ensures i == LowerIndex(a, x)
  {
    var k := LowerIndex(a, x);
    assert i < |a| ==> x <= a[i];
  }

  /** Any split point of `j > x` is the linear scan's answer: the split point is unique. */
  lemma {:induction false} SplitIsUpperIndex(a: seq<int>, x: int, i: int)
    requires Splits(a, j => x < j, i)
    ensures i == UpperIndex(a, x)
  {
    var k := UpperIndex(a, x);
    assert i < |a| ==> x < a[i];
  }

  /** lowerBound never moves left as the searched value grows. */
  lemma {:induction false} LowerIndexMonotone(a: seq<int>, x: int, y: int)
    requires x <= y
    ensures LowerIndex(a, x) <= LowerIndex(a, y)
  {
    if |a| != 0 && y > a[0] && x > a[0] {
      LowerIndexMonotone(a[1..], x, y);
    }
  }

  /** On an ascending array, lowerBound and upperBound agree exactly when `x` is absent,
      and otherwise bracket the run of elements equal to `x`. */
  lemma {:induction false} BoundsBracketEqualRun(a: seq<int>, x: int)
    requires Sorted(a)
    ensures LowerIndex(a, x) <= UpperIndex(a, x)
    ensures forall j :: LowerIndex(a, x) <= j < UpperIndex(a, x) ==> a[j] == x
    ensures LowerIndex(a, x) == UpperIndex(a, x) <==> x !in a
  {
    LowerIndexSplits(a, x);
    UpperIndexSplits(a, x);
    var lo, up := LowerIndex(a, x), UpperIndex(a, x);
    if x in a {
      var k :| 0 <= k < |a| && a[k] == x;
      assert lo <= k < up;
    }
  }
}
