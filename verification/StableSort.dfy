/** The bottom-up merge sort of HASH_SRT as a function on sequences, and what it promises.
    `cmp(a, b) <= 0` means that `a` may stay in front of `b`. */
module StableSort {

  function Take<T>(s: seq<T>, n: nat): seq<T> { if |s| <= n then s else s[..n] }

  function Drop<T>(s: seq<T>, n: nat): seq<T> { if |s| <= n then [] else s[n..] }

  /** One merge step: ties are taken from the left run. */
  function Merge<T>(p: seq<T>, q: seq<T>, cmp: (T, T) -> int): (r: seq<T>)
    ensures |r| == |p| + |q|
    decreases |p| + |q|
  {
    if p == [] then q
    else if q == [] then p
    else if cmp(p[0], q[0]) <= 0 then [p[0]] + Merge(p[1..], q, cmp)
    else [q[0]] + Merge(p, q[1..], cmp)
  }

  /** One pass over the list: neighbouring runs of length `n` are merged pairwise. */
  function MergeRuns<T>(s: seq<T>, n: nat, cmp: (T, T) -> int): (r: seq<T>)
    requires n > 0
    ensures |r| == |s|
    decreases |s|
  {
    if s == [] then []
    else Merge(Take(s, n), Take(Drop(s, n), n), cmp) + MergeRuns(Drop(Drop(s, n), n), n, cmp)
  }

  /** Passes with doubling run length, up to and including the first that needs at most one merge. */
  function BottomUp<T>(s: seq<T>, n: nat, cmp: (T, T) -> int): (r: seq<T>)
    requires n > 0
    ensures |r| == |s|
    decreases |s| - n
  {
    var r := MergeRuns(s, n, cmp);
    if |s| <= 2 * n then r else BottomUp(r, 2 * n, cmp)
  }

  lemma MergeFromLeft<T>(p: seq<T>, q: seq<T>, cmp: (T, T) -> int)
    requires p != [] && (q == [] || cmp(p[0], q[0]) <= 0)
    ensures Merge(p, q, cmp) == [p[0]] + Merge(p[1..], q, cmp)
  {
    if q == [] {
      assert Merge(p[1..], q, cmp) == p[1..];
    }
  }

  lemma MergeFromRight<T>(p: seq<T>, q: seq<T>, cmp: (T, T) -> int)
    requires q != [] && (p == [] || cmp(p[0], q[0]) > 0)
    ensures Merge(p, q, cmp) == [q[0]] + Merge(p, q[1..], cmp)
  {
  }

  ghost predicate TotalPreorder<T(!new)>(cmp: (T, T) -> int) {
    && (forall a, b :: cmp(a, b) <= 0 || cmp(b, a) <= 0)
    && (forall a, b, c :: cmp(a, b) <= 0 && cmp(b, c) <= 0 ==> cmp(a, c) <= 0)
  }

  /** Comparing by a number is a total preorder. */
  lemma ByNumber<T(!new)>(number: T -> int)
    ensures TotalPreorder((a: T, b: T) => number(a) - number(b))
  {
  }

  ghost predicate Sorted<T>(s: seq<T>, cmp: (T, T) -> int) {
    forall i, j :: 0 <= i < j < |s| ==> cmp(s[i], s[j]) <= 0
  }

  /** The elements of `s` that `cmp` cannot tell from `x`, in their order in `s`. */
  ghost function Ties<T>(x: T, s: seq<T>, cmp: (T, T) -> int): seq<T> {
    if s == [] then []
    else Tie(x, s[0], cmp) + Ties(x, s[1..], cmp)
  }

  ghost function Tie<T>(x: T, y: T, cmp: (T, T) -> int): seq<T> {
    if cmp(x, y) <= 0 && cmp(y, x) <= 0 then [y] else []
  }

  ghost predicate RunsSorted<T>(s: seq<T>, n: nat, cmp: (T, T) -> int)
    requires n > 0
    decreases |s|
  {
    s == [] || (Sorted(Take(s, n), cmp) && RunsSorted(Drop(s, n), n, cmp))
  }

  // ----- a permutation for every comparison function -----

  lemma {:induction false} MergePermutes<T>(p: seq<T>, q: seq<T>, cmp: (T, T) -> int)
    ensures multiset(Merge(p, q, cmp)) == multiset(p) + multiset(q)
    decreases |p| + |q|
  {
    if p != [] && q != [] {
      var (x, p', q') := if cmp(p[0], q[0]) <= 0 then (p[0], p[1..], q) else (q[0], p, q[1..]);
      calc {
        multiset(Merge(p, q, cmp));
        { assert Merge(p, q, cmp) == [x] + Merge(p', q', cmp); }
        multiset{x} + multiset(Merge(p', q', cmp));
        { MergePermutes(p', q', cmp); }
        multiset{x} + multiset(p') + multiset(q');
        { assert p == [p[0]] + p[1..] && q == [q[0]] + q[1..]; }
        multiset(p) + multiset(q);
      }
    }
  }

  lemma {:induction false} MergeRunsPermutes<T>(s: seq<T>, n: nat, cmp: (T, T) -> int)
    requires n > 0
    ensures multiset(MergeRuns(s, n, cmp)) == multiset(s)
    decreases |s|
  {
    if s != [] {
      var p, t := Take(s, n), Drop(s, n);
      var q, u := Take(t, n), Drop(t, n);
      calc {
        multiset(MergeRuns(s, n, cmp));
        multiset(Merge(p, q, cmp)) + multiset(MergeRuns(u, n, cmp));
        { MergePermutes(p, q, cmp); MergeRunsPermutes(u, n, cmp); }
        multiset(p) + multiset(q) + multiset(u);
        { assert s == p + q + u; }
        multiset(s);
      }
    }
  }

  lemma {:induction false} BottomUpPermutes<T>(s: seq<T>, n: nat, cmp: (T, T) -> int)
    requires n > 0
    ensures multiset(BottomUp(s, n, cmp)) == multiset(s)
    decreases |s| - n
  {
    MergeRunsPermutes(s, n, cmp);
    if |s| > 2 * n {
      BottomUpPermutes(MergeRuns(s, n, cmp), 2 * n, cmp);
    }
  }

  // ----- sorted for every total preorder -----

  lemma SortedCons<T>(x: T, s: seq<T>, cmp: (T, T) -> int)
    requires Sorted(s, cmp) && forall y :: y in s ==> cmp(x, y) <= 0
    ensures Sorted([x] + s, cmp)
  {
  }

  lemma MergeHas<T>(y: T, p: seq<T>, q: seq<T>, cmp: (T, T) -> int)
    requires y in Merge(p, q, cmp)
    ensures y in p || y in q
  {
    MergePermutes(p, q, cmp);
    assert y in multiset(Merge(p, q, cmp));
  }

  lemma {:induction false} MergeSorts<T(!new)>(p: seq<T>, q: seq<T>, cmp: (T, T) -> int)
    requires TotalPreorder(cmp) && Sorted(p, cmp) && Sorted(q, cmp)
    ensures Sorted(Merge(p, q, cmp), cmp)
    decreases |p| + |q|
  {
    if p != [] && q != [] {
      var (x, p', q') := if cmp(p[0], q[0]) <= 0 then (p[0], p[1..], q) else (q[0], p, q[1..]);
      MergeSorts(p', q', cmp);
      forall y | y in Merge(p', q', cmp) ensures cmp(x, y) <= 0 {
        MergeHas(y, p', q', cmp);
        BelowRest(x, p', q', p, q, y, cmp);
      }
      SortedCons(x, Merge(p', q', cmp), cmp);
    }
  }

  /** The smaller of two sorted heads is below everything that is left. */
  lemma BelowRest<T(!new)>(x: T, p': seq<T>, q': seq<T>, p: seq<T>, q: seq<T>, y: T, cmp: (T, T) -> int)
    requires TotalPreorder(cmp) && Sorted(p, cmp) && Sorted(q, cmp) && p != [] && q != []
    requires (x, p', q') == if cmp(p[0], q[0]) <= 0 then (p[0], p[1..], q) else (q[0], p, q[1..])
    requires y in p' || y in q'
    ensures cmp(x, y) <= 0
  {
    assert cmp(p[0], q[0]) <= 0 || cmp(q[0], p[0]) <= 0;
    assert cmp(p[0], p[0]) <= 0 && cmp(q[0], q[0]) <= 0;
    if y in p' {
      assert y in p;
      assert cmp(p[0], y) <= 0;
    } else {
      assert y in q;
      assert cmp(q[0], y) <= 0;
    }
  }

  lemma {:induction false} MergeRunsDoubles<T(!new)>(s: seq<T>, n: nat, cmp: (T, T) -> int)
    requires n > 0 && TotalPreorder(cmp) && RunsSorted(s, n, cmp)
    ensures RunsSorted(MergeRuns(s, n, cmp), 2 * n, cmp)
    decreases |s|
  {
    if s != [] {
      var p, t := Take(s, n), Drop(s, n);
      var q, u := Take(t, n), Drop(t, n);
      assert Sorted(q, cmp) && RunsSorted(u, n, cmp) by {
        if t == [] { assert q == [] && u == []; }
      }
      MergeSorts(p, q, cmp);
      MergeRunsDoubles(u, n, cmp);
      var m, r := Merge(p, q, cmp), MergeRuns(u, n, cmp);
      assert Take(m + r, 2 * n) == m && Drop(m + r, 2 * n) == r by {
        if u != [] { assert |m| == 2 * n; } else { assert r == []; }
      }
    }
  }

  lemma {:induction false} OneLongRun<T>(s: seq<T>, n: nat, cmp: (T, T) -> int)
    requires n > 0 && RunsSorted(s, n, cmp) && |s| <= n
    ensures Sorted(s, cmp)
  {
  }

  lemma {:induction false} UnitRuns<T>(s: seq<T>, cmp: (T, T) -> int)
    ensures RunsSorted(s, 1, cmp)
    decreases |s|
  {
    if s != [] {
      UnitRuns(Drop(s, 1), cmp);
    }
  }

  lemma {:induction false} BottomUpSorts<T(!new)>(s: seq<T>, n: nat, cmp: (T, T) -> int)
    requires n > 0 && TotalPreorder(cmp) && RunsSorted(s, n, cmp)
    ensures Sorted(BottomUp(s, n, cmp), cmp)
    decreases |s| - n
  {
    var r := MergeRuns(s, n, cmp);
    MergeRunsDoubles(s, n, cmp);
    if |s| <= 2 * n {
      OneLongRun(r, 2 * n, cmp);
    } else {
      BottomUpSorts(r, 2 * n, cmp);
    }
  }

  // ----- stable for every total preorder -----

  lemma {:induction false} TiesConcat<T>(x: T, s: seq<T>, t: seq<T>, cmp: (T, T) -> int)
    ensures Ties(x, s + t, cmp) == Ties(x, s, cmp) + Ties(x, t, cmp)
    decreases |s|
  {
    if s == [] {
      assert s + t == t;
    } else {
      calc {
        Ties(x, s + t, cmp);
        { assert (s + t)[0] == s[0] && (s + t)[1..] == s[1..] + t; }
        Tie(x, s[0], cmp) + Ties(x, s[1..] + t, cmp);
        { TiesConcat(x, s[1..], t, cmp); }
        Tie(x, s[0], cmp) + (Ties(x, s[1..], cmp) + Ties(x, t, cmp));
        (Tie(x, s[0], cmp) + Ties(x, s[1..], cmp)) + Ties(x, t, cmp);
      }
    }
  }

  lemma CountOfConcat<T>(s: seq<T>, t: seq<T>, y: T)
    ensures multiset(s + t)[y] == multiset(s)[y] + multiset(t)[y]
  {
  }

  /** The ties of x are the elements that compare equal to it, each as often as it occurs. */
  lemma {:induction false} TiesCount<T>(x: T, s: seq<T>, y: T, cmp: (T, T) -> int)
    ensures multiset(Ties(x, s, cmp))[y] == if cmp(x, y) <= 0 && cmp(y, x) <= 0 then multiset(s)[y] else 0
    decreases |s|
  {
    if s != [] {
      TiesCount(x, s[1..], y, cmp);
      CountOfConcat([s[0]], s[1..], y);
      assert s == [s[0]] + s[1..];
      CountOfConcat(Tie(x, s[0], cmp), Ties(x, s[1..], cmp), y);
    }
  }

  lemma {:induction false} NoTies<T>(x: T, s: seq<T>, cmp: (T, T) -> int)
    requires forall y :: y in s ==> !(cmp(x, y) <= 0 && cmp(y, x) <= 0)
    ensures Ties(x, s, cmp) == []
    decreases |s|
  {
    if s != [] {
      NoTies(x, s[1..], cmp);
    }
  }

  lemma TiesCons<T>(x: T, y: T, s: seq<T>, cmp: (T, T) -> int)
    ensures Ties(x, [y] + s, cmp) == Tie(x, y, cmp) + Ties(x, s, cmp)
  {
    assert ([y] + s)[1..] == s;
  }

  /** Something in the left run that ties with `x` cannot be above a right head that also does. */
  lemma NothingTies<T(!new)>(x: T, p: seq<T>, y: T, cmp: (T, T) -> int)
    requires TotalPreorder(cmp) && Sorted(p, cmp) && p != [] && cmp(p[0], y) > 0
    requires cmp(x, y) <= 0 && cmp(y, x) <= 0
    ensures Ties(x, p, cmp) == []
  {
    forall z | z in p ensures !(cmp(x, z) <= 0 && cmp(z, x) <= 0) {
      assert cmp(p[0], p[0]) <= 0;
      assert cmp(p[0], z) <= 0;
      assert cmp(z, x) <= 0 ==> cmp(z, y) <= 0;
    }
    NoTies(x, p, cmp);
  }

  lemma {:induction false} MergeIsStable<T(!new)>(x: T, p: seq<T>, q: seq<T>, cmp: (T, T) -> int)
    requires TotalPreorder(cmp) && Sorted(p, cmp)
    ensures Ties(x, Merge(p, q, cmp), cmp) == Ties(x, p, cmp) + Ties(x, q, cmp)
    decreases |p| + |q|
  {
    if p != [] && q != [] {
      if cmp(p[0], q[0]) <= 0 {
        MergeIsStable(x, p[1..], q, cmp);
        TiesCons(x, p[0], Merge(p[1..], q, cmp), cmp);
        calc {
          Ties(x, Merge(p, q, cmp), cmp);
          Tie(x, p[0], cmp) + (Ties(x, p[1..], cmp) + Ties(x, q, cmp));
          (Tie(x, p[0], cmp) + Ties(x, p[1..], cmp)) + Ties(x, q, cmp);
        }
      } else {
        MergeIsStable(x, p, q[1..], cmp);
        TiesCons(x, q[0], Merge(p, q[1..], cmp), cmp);
        RightHeadMoves(x, p, q, cmp);
      }
    }
  }

  lemma RightHeadMoves<T(!new)>(x: T, p: seq<T>, q: seq<T>, cmp: (T, T) -> int)
    requires TotalPreorder(cmp) && Sorted(p, cmp) && p != [] && q != [] && cmp(p[0], q[0]) > 0
    ensures Tie(x, q[0], cmp) + (Ties(x, p, cmp) + Ties(x, q[1..], cmp)) == Ties(x, p, cmp) + Ties(x, q, cmp)
  {
    var h, a, b := Tie(x, q[0], cmp), Ties(x, p, cmp), Ties(x, q[1..], cmp);
    assert Ties(x, q, cmp) == h + b;
    if h != [] {
      NothingTies(x, p, q[0], cmp);
    }
    hide Ties, Tie, Sorted, TotalPreorder;
    EmptySwap(h, a, b);
  }

  lemma EmptySwap<T>(h: seq<T>, a: seq<T>, b: seq<T>)
    requires h == [] || a == []
    ensures h + (a + b) == a + (h + b)
  {
  }

  lemma {:induction false} MergeRunsIsStable<T(!new)>(x: T, s: seq<T>, n: nat, cmp: (T, T) -> int)
    requires n > 0 && TotalPreorder(cmp) && RunsSorted(s, n, cmp)
    ensures Ties(x, MergeRuns(s, n, cmp), cmp) == Ties(x, s, cmp)
    decreases |s|
  {
    if s != [] {
      var p, t := Take(s, n), Drop(s, n);
      var q, u := Take(t, n), Drop(t, n);
      assert RunsSorted(u, n, cmp) by {
        if t == [] { assert u == []; }
      }
      calc {
        Ties(x, MergeRuns(s, n, cmp), cmp);
        { TiesConcat(x, Merge(p, q, cmp), MergeRuns(u, n, cmp), cmp); }
        Ties(x, Merge(p, q, cmp), cmp) + Ties(x, MergeRuns(u, n, cmp), cmp);
        { MergeIsStable(x, p, q, cmp); MergeRunsIsStable(x, u, n, cmp); }
        Ties(x, p, cmp) + Ties(x, q, cmp) + Ties(x, u, cmp);
        { TiesConcat(x, p, q, cmp); TiesConcat(x, p + q, u, cmp); }
        Ties(x, p + q + u, cmp);
        { assert s == p + q + u; }
        Ties(x, s, cmp);
      }
    }
  }

  lemma {:induction false} BottomUpIsStable<T(!new)>(x: T, s: seq<T>, n: nat, cmp: (T, T) -> int)
    requires n > 0 && TotalPreorder(cmp) && RunsSorted(s, n, cmp)
    ensures Ties(x, BottomUp(s, n, cmp), cmp) == Ties(x, s, cmp)
    decreases |s| - n
  {
    MergeRunsIsStable(x, s, n, cmp);
    MergeRunsDoubles(s, n, cmp);
    if |s| > 2 * n {
      BottomUpIsStable(x, MergeRuns(s, n, cmp), 2 * n, cmp);
    }
  }

  /** HASH_SRT is a stable sort: a permutation in order in which ties keep their places. */
  lemma SortIsStable<T(!new)>(s: seq<T>, cmp: (T, T) -> int)
    ensures multiset(BottomUp(s, 1, cmp)) == multiset(s)
    ensures TotalPreorder(cmp) ==>
              && Sorted(BottomUp(s, 1, cmp), cmp)
              && forall x :: Ties(x, BottomUp(s, 1, cmp), cmp) == Ties(x, s, cmp)
  {
    BottomUpPermutes(s, 1, cmp);
    if TotalPreorder(cmp) {
      UnitRuns(s, cmp);
      BottomUpSorts(s, 1, cmp);
      forall x ensures Ties(x, BottomUp(s, 1, cmp), cmp) == Ties(x, s, cmp) {
        BottomUpIsStable(x, s, 1, cmp);
      }
    }
  }
}
