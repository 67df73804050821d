/** Order-preserving selection over sequences: the row filters and filter-maps of the pipeline. */
module Seqs {
  import opened Options

  /** The items an optional value contributes to a filter-map: zero or one. */
  function Emit<U>(o: Option<U>): seq<U> {
    match o
    case Some(v) => [v]
    case None => []
  }

  /** Applies `f` to every item in order, keeping the `Some` results and dropping the `None`s. */
  function FilterMap<T, U>(s: seq<T>, f: T -> Option<U>): (r: seq<U>)
    ensures |r| <= |s|
    decreases |s|
  {
    if |s| == 0 then []
    else FilterMap(s[..|s| - 1], f) + Emit(f(s[|s| - 1]))
  }

  ghost predicate StrictlyIncreasing(idx: seq<nat>) {
    forall a, b :: 0 <= a < b < |idx| ==> idx[a] < idx[b]
  }

  /**
   * The positions of `s` that survive `FilterMap(s, f)`, in order: output item `t` is the image of
   * input item `KeptIndices(s, f)[t]`, and an input item survives exactly when `f` gives `Some`.
   */
  function KeptIndices<T, U>(s: seq<T>, f: T -> Option<U>): (idx: seq<nat>)
    ensures |idx| == |FilterMap(s, f)|
    ensures StrictlyIncreasing(idx)
    ensures forall t :: 0 <= t < |idx| ==> idx[t] < |s| && f(s[idx[t]]) == Some(FilterMap(s, f)[t])
    ensures forall j :: 0 <= j < |s| ==> (f(s[j]).Some? <==> j in idx)
    decreases |s|
  {
    if |s| == 0 then []
    else
      var n := |s| - 1;
      var front := KeptIndices(s[..n], f);
      assert forall t :: 0 <= t < |front| ==> s[..n][front[t]] == s[front[t]];
      front + (if f(s[n]).Some? then [n] else [])
  }

  /** Nothing is dropped exactly when `f` gives `Some` for every item. */
  lemma {:induction false} FilterMapDropsNothing<T, U>(s: seq<T>, f: T -> Option<U>)
    ensures |FilterMap(s, f)| == |s| <==> forall i :: 0 <= i < |s| ==> f(s[i]).Some?
    decreases |s|
  {
    if |s| > 0 {
      var n := |s| - 1;
      FilterMapDropsNothing(s[..n], f);
      if forall i :: 0 <= i < |s| ==> f(s[i]).Some? {
        assert forall i :: 0 <= i < n ==> s[..n][i] == s[i];
      } else if f(s[n]).Some? {
        var i :| 0 <= i < |s| && f(s[i]).None?;
        assert s[..n][i] == s[i];
      }
    }
  }

  lemma FilterMapMember<T, U>(s: seq<T>, f: T -> Option<U>, y: U)
    ensures y in FilterMap(s, f) <==> exists i :: 0 <= i < |s| && f(s[i]) == Some(y)
  {
    var r := FilterMap(s, f);
    var idx := KeptIndices(s, f);
    if y in r {
      var t :| 0 <= t < |r| && r[t] == y;
      assert f(s[idx[t]]) == Some(y);
    }
    if i :| 0 <= i < |s| && f(s[i]) == Some(y) {
      assert i in idx;
      var t :| 0 <= t < |idx| && idx[t] == i;
      assert r[t] == y;
    }
  }

  /** The filter-map that keeps the items satisfying `p` unchanged. */
  function Keep<T>(p: T -> bool): T -> Option<T> {
    x => if p(x) then Some(x) else None
  }

  /** A boolean-mask selection `df[mask]`: the items satisfying `p`, in their original order. */
  function Filter<T(!new)>(s: seq<T>, p: T -> bool): (r: seq<T>)
    ensures |r| <= |s|
    ensures forall x :: x in r <==> x in s && p(x)
  {
    var r := FilterMap(s, Keep(p));
    assert forall x :: x in r <==> x in s && p(x) by {
      forall x
        ensures x in r <==> x in s && p(x)
      {
        FilterMapMember(s, Keep(p), x);
      }
    }
    r
  }

  lemma {:induction false} FilterMapAppend<T, U>(a: seq<T>, b: seq<T>, f: T -> Option<U>)
    ensures FilterMap(a + b, f) == FilterMap(a, f) + FilterMap(b, f)
    decreases |b|
  {
    if |b| == 0 {
      assert a + b == a;
    } else {
      var n := |b| - 1;
      assert (a + b)[..|a + b| - 1] == a + b[..n];
      FilterMapAppend(a, b[..n], f);
    }
  }

  lemma FilterAppend<T(!new)>(a: seq<T>, b: seq<T>, p: T -> bool)
    ensures Filter(a + b, p) == Filter(a, p) + Filter(b, p)
  {
    FilterMapAppend(a, b, Keep(p));
  }

  /** The last item of a non-empty sequence is selected iff it satisfies `p`. */
  lemma FilterSnoc<T(!new)>(s: seq<T>, p: T -> bool)
    requires |s| > 0
    ensures Filter(s, p) == Filter(s[..|s| - 1], p) + (if p(s[|s| - 1]) then [s[|s| - 1]] else [])
  {
  }

  /**
   * The positions `Filter(s, p)` keeps, in order: output item `t` is input item `idx[t]`, and
   * an input item is kept exactly when it satisfies `p`.
   */
  function FilterPositions<T(!new)>(s: seq<T>, p: T -> bool): (idx: seq<nat>)
    ensures |idx| == |Filter(s, p)|
    ensures StrictlyIncreasing(idx)
    ensures forall t :: 0 <= t < |idx| ==> idx[t] < |s| && Filter(s, p)[t] == s[idx[t]]
    ensures forall j :: 0 <= j < |s| ==> (p(s[j]) <==> j in idx)
  {
    KeptIndices(s, Keep(p))
  }

  /** The positions of `s` whose item satisfies `p`: the true entries of a boolean mask. */
  ghost function Positions<T>(s: seq<T>, p: T -> bool): set<int> {
    set i | 0 <= i < |s| && p(s[i])
  }

  /** A selection is as long as its mask has true entries (`df[mask].shape[0]`). */
  lemma {:induction false} FilterSizeIsPositions<T(!new)>(s: seq<T>, p: T -> bool)
    ensures |Filter(s, p)| == |Positions(s, p)|
    decreases |s|
  {
    if |s| > 0 {
      var n := |s| - 1;
      FilterSizeIsPositions(s[..n], p);
      FilterSnoc(s, p);
      PositionsSnoc(s, p);
      assert |Filter(s, p)| == |Filter(s[..n], p)| + Ind(p(s[n]));
    }
  }

  /** The mask of a non-empty sequence: the mask of all but the last item, plus the last position if it is selected. */
  lemma PositionsSnoc<T>(s: seq<T>, p: T -> bool)
    requires |s| > 0
    ensures |Positions(s, p)| == |Positions(s[..|s| - 1], p)| + (if p(s[|s| - 1]) then 1 else 0)
  {
    var n := |s| - 1;
    var front := Positions(s[..n], p);
    assert forall i :: 0 <= i < n ==> s[..n][i] == s[i];
    if p(s[n]) {
      assert Positions(s, p) == front + {n};
      assert n !in front;
    } else {
      assert Positions(s, p) == front;
    }
  }

  /** Filtering twice selects the same items in either order. */
  lemma {:induction false} FilterCommute<T(!new)>(s: seq<T>, a: T -> bool, b: T -> bool)
    ensures Filter(Filter(s, a), b) == Filter(Filter(s, b), a)
    decreases |s|
  {
    if |s| > 0 {
      var n := |s| - 1;
      FilterCommute(s[..n], a, b);
      FilterSnoc(s, a);
      FilterSnoc(s, b);
      FilterAppend(Filter(s[..n], a), if a(s[n]) then [s[n]] else [], b);
      FilterAppend(Filter(s[..n], b), if b(s[n]) then [s[n]] else [], a);
    }
  }

  /** A second, narrower filter makes the first one redundant. */
  lemma {:induction false} FilterNarrower<T(!new)>(s: seq<T>, a: T -> bool, b: T -> bool)
    requires forall x :: x in s && b(x) ==> a(x)
    ensures Filter(Filter(s, a), b) == Filter(s, b)
    decreases |s|
  {
    if |s| > 0 {
      var n := |s| - 1;
      var init, last := s[..n], s[n];
      assert forall x :: x in init ==> x in s;
      FilterNarrower(init, a, b);
      FilterSnoc(s, a);
      FilterSnoc(s, b);
      if a(last) {
        FilterAppend(Filter(init, a), [last], b);
        FilterSnoc([last], b);
      } else {
        assert last in s;
        assert Filter(s, a) == Filter(init, a);
      }
    }
  }

  /** Filtering by `a` and then by `b` selects what the conjunction `c` selects, in the same order. */
  lemma {:induction false} FilterBoth<T(!new)>(s: seq<T>, a: T -> bool, b: T -> bool, c: T -> bool)
    requires forall x :: x in s ==> (c(x) <==> a(x) && b(x))
    ensures Filter(Filter(s, a), b) == Filter(s, c)
    decreases |s|
  {
    if |s| > 0 {
      var n := |s| - 1;
      var init, last := s[..n], s[n];
      assert forall x :: x in init ==> x in s;
      assert last in s;
      FilterBoth(init, a, b, c);
      FilterSnoc(s, a);
      FilterSnoc(s, c);
      if a(last) {
        FilterAppend(Filter(init, a), [last], b);
        FilterSnoc([last], b);
        assert c(last) == b(last);
      } else {
        assert Filter(s, a) == Filter(init, a);
        assert Filter(s, c) == Filter(init, c);
      }
    }
  }

  function Ind(b: bool): nat {
    if b then 1 else 0
  }

  /** Three selections that split every item exactly one way together select every item once. */
  lemma {:induction false} FilterPartition3<T(!new)>(s: seq<T>, a: T -> bool, b: T -> bool, c: T -> bool)
    requires forall x :: x in s ==> Ind(a(x)) + Ind(b(x)) + Ind(c(x)) == 1
    ensures |Filter(s, a)| + |Filter(s, b)| + |Filter(s, c)| == |s|
    decreases |s|
  {
    if |s| > 0 {
      var n := |s| - 1;
      assert forall x :: x in s[..n] ==> x in s;
      FilterPartition3(s[..n], a, b, c);
      FilterSnoc(s, a);
      FilterSnoc(s, b);
      FilterSnoc(s, c);
      assert s[n] in s;
    }
  }

  /** Four pairwise-disjoint selections together select no more items than there are. */
  lemma {:induction false} FilterDisjoint4<T(!new)>(s: seq<T>, a: T -> bool, b: T -> bool, c: T -> bool, d: T -> bool)
    requires forall x :: x in s ==> Ind(a(x)) + Ind(b(x)) + Ind(c(x)) + Ind(d(x)) <= 1
    ensures |Filter(s, a)| + |Filter(s, b)| + |Filter(s, c)| + |Filter(s, d)| <= |s|
    decreases |s|
  {
    if |s| > 0 {
      var n := |s| - 1;
      assert forall x :: x in s[..n] ==> x in s;
      FilterDisjoint4(s[..n], a, b, c, d);
      FilterSnoc(s, a);
      FilterSnoc(s, b);
      FilterSnoc(s, c);
      FilterSnoc(s, d);
      assert s[n] in s;
    }
  }

  ghost predicate NoDuplicates<T>(s: seq<T>) {
    forall i, j :: 0 <= i < j < |s| ==> s[i] != s[j]
  }

  /** The distinct items of `s`, each once (pandas `unique`). */
  function Distinct<T(==,!new)>(s: seq<T>): (r: seq<T>)
    ensures |r| <= |s|
    ensures NoDuplicates(r)
    ensures forall x :: x in r <==> x in s
    decreases |s|
  {
    if |s| == 0 then []
    else
      var d := Distinct(s[..|s| - 1]);
      assert s == s[..|s| - 1] + [s[|s| - 1]];
      if s[|s| - 1] in d then d else d + [s[|s| - 1]]
  }

  lemma {:induction false} NoDuplicatesMultiplicity<T>(s: seq<T>)
    ensures NoDuplicates(s) <==> forall x :: multiset(s)[x] <= 1
    decreases |s|
  {
    if |s| > 0 {
      var n := |s| - 1;
      assert s == s[..n] + [s[n]];
      NoDuplicatesMultiplicity(s[..n]);
      if NoDuplicates(s) {
        assert s[n] !in s[..n];
      } else {
        var i, j :| 0 <= i < j < |s| && s[i] == s[j];
        if j < n {
          assert s[..n][i] == s[..n][j];
          var x :| multiset(s[..n])[x] > 1;
          assert multiset(s)[x] > 1;
        } else {
          assert s[i] in s[..n];
          assert multiset(s)[s[n]] == multiset(s[..n])[s[n]] + 1;
        }
      }
    }
  }

  /** Reordering keeps a sequence free of duplicates. */
  lemma NoDuplicatesPermutation<T>(a: seq<T>, b: seq<T>)
    requires NoDuplicates(a)
    requires multiset(a) == multiset(b)
    ensures NoDuplicates(b)
  {
    NoDuplicatesMultiplicity(a);
    NoDuplicatesMultiplicity(b);
  }
}
