/** Medians.  The code sorts and takes the middle element; what a median means is
    said by counting, without any order of the list. */
module OrderStatistics {

  function Insert(x: int, s: seq<int>): seq<int> {
    if s == [] || x <= s[0] then [x] + s else [s[0]] + Insert(x, s[1..])
  }

  function Sort(s: seq<int>): seq<int> {
    if s == [] then [] else Insert(s[0], Sort(s[1..]))
  }

  ghost predicate Ascending(s: seq<int>) {
    forall i, j | 0 <= i < j < |s| :: s[i] <= s[j]
  }

  lemma {:induction false} InsertKeeps(x: int, s: seq<int>)
    requires Ascending(s)
    ensures Ascending(Insert(x, s)) && multiset(Insert(x, s)) == multiset(s) + multiset{x}
  {
    if s == [] {
    } else if x <= s[0] {
      assert [x] + s == Insert(x, s);
    } else {
      InsertKeeps(x, s[1..]);
      assert s == [s[0]] + s[1..];
      var r := Insert(x, s[1..]);
      forall i | 0 <= i < |r|
        ensures s[0] <= r[i]
      {
        assert r[i] in multiset(r);
        assert r[i] in multiset(s[1..]) + multiset{x};
      }
    }
  }

  lemma {:induction false} SortSorts(s: seq<int>)
    ensures Ascending(Sort(s)) && multiset(Sort(s)) == multiset(s)
    ensures |Sort(s)| == |s|
  {
    if s != [] {
      SortSorts(s[1..]);
      InsertKeeps(s[0], Sort(s[1..]));
      assert s == [s[0]] + s[1..];
    }
    assert |multiset(Sort(s))| == |multiset(s)|;
  }

  // -------------------------------------------------------------------
  // Counting
  // -------------------------------------------------------------------

  ghost function AtMost(s: seq<real>, x: real): nat {
    if s == [] then 0 else (if s[0] <= x then 1 else 0) + AtMost(s[1..], x)
  }

  ghost function Below(s: seq<real>, x: real): nat {
    if s == [] then 0 else (if s[0] < x then 1 else 0) + Below(s[1..], x)
  }

  /** `v` is what stands at index `k` when the list is put in order. */
  ghost predicate IsKth(s: seq<real>, k: nat, v: real) {
    Below(s, v) <= k < AtMost(s, v)
  }

  ghost predicate IsMedian(s: seq<real>, v: real) {
    IsKth(s, |s| / 2, v)
  }

  lemma {:induction false} CountsMonotone(s: seq<real>, x: real, y: real)
    requires x < y
    ensures AtMost(s, x) <= Below(s, y) <= AtMost(s, y) <= |s|
    ensures Below(s, x) <= AtMost(s, x)
  {
    if s != [] {
      CountsMonotone(s[1..], x, y);
    }
  }

  /** There is exactly one k-th element. */
  lemma KthUnique(s: seq<real>, k: nat, v: real, w: real)
    requires IsKth(s, k, v) && IsKth(s, k, w)
    ensures v == w
  {
    if v < w {
      CountsMonotone(s, v, w);
    } else if w < v {
      CountsMonotone(s, w, v);
    }
  }

  /** Raising entries never lowers the k-th element, for lists of any length. */
  lemma KthMonotone(a: seq<real>, b: seq<real>, k: nat, v: real, w: real)
    requires |a| == |b| && forall i | 0 <= i < |a| :: a[i] <= b[i]
    requires IsKth(a, k, v) && IsKth(b, k, w)
    ensures v <= w
  {
    if w < v {
      AtMostAntitone(a, b, w);
      CountsMonotone(a, w, v);
    }
  }

  lemma {:induction false} AtMostAntitone(a: seq<real>, b: seq<real>, x: real)
    requires |a| == |b| && forall i | 0 <= i < |a| :: a[i] <= b[i]
    ensures AtMost(b, x) <= AtMost(a, x)
  {
    if a != [] {
      assert forall i | 0 <= i < |a[1..]| :: a[1..][i] == a[i + 1] && b[1..][i] == b[i + 1];
      AtMostAntitone(a[1..], b[1..], x);
    }
  }

  // -------------------------------------------------------------------
  // The element the code picks is the one counting describes
  // -------------------------------------------------------------------

  function Reals(s: seq<int>): (r: seq<real>)
    ensures |r| == |s|
    ensures forall i | 0 <= i < |s| :: r[i] == s[i] as real
  {
    if s == [] then [] else [s[0] as real] + Reals(s[1..])
  }

  lemma {:induction false} InsertCounts(x: int, s: seq<int>, y: real)
    ensures AtMost(Reals(Insert(x, s)), y) == AtMost(Reals([x] + s), y)
    ensures Below(Reals(Insert(x, s)), y) == Below(Reals([x] + s), y)
  {
    assert ([x] + s)[1..] == s;
    if s == [] || x <= s[0] {
    } else {
      InsertCounts(x, s[1..], y);
      assert ([x] + s[1..])[1..] == s[1..];
      assert Insert(x, s)[1..] == Insert(x, s[1..]);
    }
  }

  lemma {:induction false} SortCounts(s: seq<int>, y: real)
    ensures AtMost(Reals(Sort(s)), y) == AtMost(Reals(s), y)
    ensures Below(Reals(Sort(s)), y) == Below(Reals(s), y)
  {
    if s != [] {
      SortCounts(s[1..], y);
      InsertCounts(s[0], Sort(s[1..]), y);
      assert ([s[0]] + Sort(s[1..]))[1..] == Sort(s[1..]);
    }
  }

  lemma {:induction false} AscendingCounts(s: seq<int>, k: nat)
    requires Ascending(s) && k < |s|
    ensures IsKth(Reals(s), k, s[k] as real)
  {
    var tail := s[1..];
    if k > 0 {
      AscendingCounts(tail, k - 1);
    } else {
      NoneBelow(s, s[0] as real);
    }
  }

  lemma {:induction false} NoneBelow(s: seq<int>, y: real)
    requires forall i | 0 <= i < |s| :: y <= s[i] as real
    ensures Below(Reals(s), y) == 0
  {
    if s != [] {
      NoneBelow(s[1..], y);
    }
  }

  lemma SortedElementIsKth(s: seq<int>, k: nat)
    requires k < |s|
    ensures |Sort(s)| == |s| && IsKth(Reals(s), k, Sort(s)[k] as real)
  {
    SortSorts(s);
    AscendingCounts(Sort(s), k);
    SortCounts(s, Sort(s)[k] as real);
  }

  // -------------------------------------------------------------------
  // Existence, for lists of reals
  // -------------------------------------------------------------------

  lemma {:induction false} KthExists(s: seq<real>, k: nat) returns (v: real)
    requires k < |s|
    ensures IsKth(s, k, v)
  {
    var x, tail := s[0], s[1..];
    if |tail| == 0 {
      v := x;
    } else if k == 0 {
      var low := KthExists(tail, 0);
      v := if x < low then x else low;
      if x < low {
        CountsMonotone(tail, x, low);
      }
    } else if k == |tail| {
      var high := KthExists(tail, k - 1);
      v := if high < x then x else high;
      AllAtMost(tail, high, k - 1);
      if high < x {
        CountsMonotone(tail, high, x);
      }
    } else {
      var low := KthExists(tail, k - 1);
      var high := KthExists(tail, k);
      if x <= low {
        v := low;
      } else if high <= x {
        v := high;
        CountsAtMost(tail, high);
      } else {
        v := x;
        CountsMonotone(tail, low, x);
        CountsMonotone(tail, x, high);
      }
    }
  }

  lemma {:induction false} CountsAtMost(s: seq<real>, x: real)
    ensures Below(s, x) <= AtMost(s, x) <= |s|
  {
    if s != [] {
      CountsAtMost(s[1..], x);
    }
  }

  lemma AllAtMost(s: seq<real>, high: real, k: nat)
    requires |s| == k + 1 && IsKth(s, k, high)
    ensures AtMost(s, high) == |s|
  {
    CountsAtMost(s, high);
  }
}
