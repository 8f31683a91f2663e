/** The order statistic of the servo's filter: the second-lowest of a window, by
    in-place insertion sort, and what makes it immune to late samples. */
module LowEdge {
  import opened Arith

  /** Insert x after everything not greater, scanning from the back. */
  function Insert(x: int, s: seq<int>): seq<int>
  {
    if s == [] || s[|s| - 1] <= x then s + [x]
    else Insert(x, s[..|s| - 1]) + [s[|s| - 1]]
  }

  function Sort(s: seq<int>): (r: seq<int>)
    ensures |r| == |s|
  {
    if s == [] then [] else (InsertLength(s[|s| - 1], Sort(s[..|s| - 1])); Insert(s[|s| - 1], Sort(s[..|s| - 1])))
  }

  lemma {:induction false} InsertLength(x: int, s: seq<int>)
    ensures |Insert(x, s)| == |s| + 1
    decreases |s|
  {
    if s != [] && s[|s| - 1] > x { InsertLength(x, s[..|s| - 1]); }
  }

  /** The second-lowest sample, or the only one. */
  function SecondLowest(s: seq<int>): int
    requires s != []
  {
    Sort(s)[if |s| > 1 then 1 else 0]
  }

  /** How many samples are at most b. */
  function LowCount(s: seq<int>, b: int): nat
  {
    if s == [] then 0 else LowCount(s[..|s| - 1], b) + if s[|s| - 1] <= b then 1 else 0
  }

  ghost predicate Sorted(s: seq<int>)
  {
    forall i, j :: 0 <= i <= j < |s| ==> s[i] <= s[j]
  }

  lemma LowCountAppend(s: seq<int>, x: int, b: int)
    ensures LowCount(s + [x], b) == LowCount(s, b) + if x <= b then 1 else 0
  {
    assert (s + [x])[..|s|] == s;
  }

  lemma {:induction false} InsertCount(x: int, s: seq<int>, b: int)
    ensures LowCount(Insert(x, s), b) == LowCount(s, b) + if x <= b then 1 else 0
    decreases |s|
  {
    if s == [] || s[|s| - 1] <= x {
      LowCountAppend(s, x, b);
    } else {
      InsertCount(x, s[..|s| - 1], b);
      LowCountAppend(Insert(x, s[..|s| - 1]), s[|s| - 1], b);
    }
  }

  lemma {:induction false} InsertSorted(x: int, s: seq<int>)
    requires Sorted(s)
    ensures Sorted(Insert(x, s)) && |Insert(x, s)| == |s| + 1
    ensures forall i :: 0 <= i <= |s| ==> Insert(x, s)[i] <= if s == [] then x else Max(x, s[|s| - 1])
    decreases |s|
  {
    if s != [] && s[|s| - 1] > x { InsertSorted(x, s[..|s| - 1]); }
  }

  lemma {:induction false} SortSorts(s: seq<int>, b: int)
    ensures Sorted(Sort(s)) && LowCount(Sort(s), b) == LowCount(s, b)
    decreases |s|
  {
    if s != [] {
      var t := Sort(s[..|s| - 1]);
      SortSorts(s[..|s| - 1], b);
      InsertSorted(s[|s| - 1], t);
      InsertCount(s[|s| - 1], t, b);
    }
  }

  /** In sorted order, the entry at rank r is at most b iff more than r entries are. */
  lemma {:induction false} RankByCount(t: seq<int>, r: nat, b: int)
    requires Sorted(t) && r < |t|
    ensures t[r] <= b <==> LowCount(t, b) > r
    decreases |t|
  {
    var u := t[..|t| - 1];
    if r < |u| {
      RankByCount(u, r, b);
    } else {
      CountAtMostLength(u, b);
      if t[r] <= b { AllCounted(u, b); }
    }
  }

  lemma {:induction false} CountAtMostLength(t: seq<int>, b: int)
    ensures LowCount(t, b) <= |t|
    decreases |t|
  {
    if t != [] { CountAtMostLength(t[..|t| - 1], b); }
  }

  lemma {:induction false} AllCounted(t: seq<int>, b: int)
    requires forall i :: 0 <= i < |t| ==> t[i] <= b
    ensures LowCount(t, b) == |t|
    decreases |t|
  {
    if t != [] { AllCounted(t[..|t| - 1], b); }
  }

  /** What the filter means, and all it means: it is at most b exactly when two
      samples are (one, if there is only one). */
  lemma SecondLowestByCount(s: seq<int>, b: int)
    requires s != []
    ensures SecondLowest(s) <= b <==> LowCount(s, b) >= Min(2, |s|)
  {
    SortSorts(s, b);
    RankByCount(Sort(s), if |s| > 1 then 1 else 0, b);
  }

  /** It is one of the samples. */
  lemma SecondLowestIsOne(s: seq<int>) returns (k: nat)
    requires s != []
    ensures k < |s| && s[k] == SecondLowest(s)
  {
    SecondLowestByCount(s, SecondLowest(s));
    SecondLowestByCount(s, SecondLowest(s) - 1);
    k := CountsDiffer(s, SecondLowest(s));
  }

  /** If more samples are at most v than are below it, some sample is v. */
  lemma {:induction false} CountsDiffer(s: seq<int>, v: int) returns (k: nat)
    requires LowCount(s, v) > LowCount(s, v - 1)
    ensures k < |s| && s[k] == v
    decreases |s|
  {
    k := |s| - 1;
    if s[k] != v { k := CountsDiffer(s[..k], v); }
  }

  /** Exactly when a given sample is the one: at least one other is at most it (unless
      it is alone), and at most one is below it. */
  lemma SecondLowestExactly(s: seq<int>, v: int)
    requires s != []
    ensures SecondLowest(s) == v <==> LowCount(s, v) >= Min(2, |s|) && LowCount(s, v - 1) < Min(2, |s|)
  {
    SecondLowestByCount(s, v);
    SecondLowestByCount(s, v - 1);
  }

  /** Late samples cannot raise it: two samples at most b keep it at most b
      however late the rest are. */
  lemma LateSamplesCannotRaise(s: seq<int>, i: nat, j: nat, b: int)
    requires i < j < |s| && s[i] <= b && s[j] <= b
    ensures SecondLowest(s) <= b
  {
    CountTwo(s, i, j, b);
    SecondLowestByCount(s, b);
  }

  lemma {:induction false} CountOne(s: seq<int>, i: nat, b: int)
    requires i < |s| && s[i] <= b
    ensures LowCount(s, b) >= 1
    decreases |s|
  {
    if i < |s| - 1 { CountOne(s[..|s| - 1], i, b); }
  }

  lemma {:induction false} CountTwo(s: seq<int>, i: nat, j: nat, b: int)
    requires i < j < |s| && s[i] <= b && s[j] <= b
    ensures LowCount(s, b) >= 2
    decreases |s|
  {
    if j < |s| - 1 { CountTwo(s[..|s| - 1], i, j, b); } else { CountOne(s[..|s| - 1], i, b); }
  }

  /** One early glitch cannot drag it down: with at most one sample below a, out
      of two or more, it is at least a. */
  lemma OneGlitchCannotLower(s: seq<int>, a: int)
    requires |s| >= 2 && LowCount(s, a - 1) <= 1
    ensures SecondLowest(s) >= a
  {
    SecondLowestByCount(s, a - 1);
  }

  lemma InsertShift(x: int, s: seq<int>, tail: seq<int>)
    requires s != [] && s[|s| - 1] > x
    ensures Insert(x, s) + tail == Insert(x, s[..|s| - 1]) + ([s[|s| - 1]] + tail)
  {
  }

  lemma InsertHere(x: int, s: seq<int>)
    requires s == [] || s[|s| - 1] <= x
    ensures Insert(x, s) == s + [x]
  {
  }

  /** The inner loop of the insertion sort. */
  method InsertInPlace(tmp: array<int>, i: nat)
    requires i < tmp.Length
    modifies tmp
    ensures tmp[..i + 1] == Insert(old(tmp[i]), old(tmp[..i]))
    ensures forall k :: i < k < tmp.Length ==> tmp[k] == old(tmp[k])
  {
    hide Insert;
    var k := tmp[i];
    ghost var s := tmp[..i];
    ghost var tail: seq<int> := [];
    var j := i;
    while j > 0 && tmp[j - 1] > k
      invariant 0 <= j <= i && tmp[..j] == s[..j] && tmp[j + 1..i + 1] == tail
      invariant Insert(k, s) == Insert(k, s[..j]) + tail
      invariant forall m :: i < m < tmp.Length ==> tmp[m] == old(tmp[m])
    {
      InsertShift(k, s[..j], tail);
      assert s[..j][..j - 1] == s[..j - 1];
      tail := [s[j - 1]] + tail;
      tmp[j] := tmp[j - 1];
      j := j - 1;
    }
    InsertHere(k, s[..j]);
    tmp[j] := k;
    assert tmp[..i + 1] == (s[..j] + [k]) + tail;
  }

  lemma SortOne(s: seq<int>)
    requires |s| == 1
    ensures Sort(s) == s
  {
    assert s[..0] == [] && Sort([]) == [];
  }

  lemma SortMore(s: seq<int>, i: nat)
    requires i < |s|
    ensures Sort(s[..i + 1]) == Insert(s[i], Sort(s[..i]))
  {
    hide Insert;
    assert s[..i + 1][..i] == s[..i];
  }

  /** Sort the first n entries in place. */
  method SortInPlace(tmp: array<int>, n: nat)
    requires 0 < n <= tmp.Length
    modifies tmp
    ensures tmp[..n] == Sort(old(tmp[..n]))
  {
    ghost var s := tmp[..n];
    SortOne(s[..1]);
    hide Insert, Sort;
    var i := 1;
    while i < n
      invariant 1 <= i <= n && tmp[..i] == Sort(s[..i])
      invariant forall k :: i <= k < n ==> tmp[k] == s[k]
    {
      InsertInPlace(tmp, i);
      SortMore(s, i);
      i := i + 1;
    }
    assert s[..n] == s;
  }
}
