/** HASH_SRT: Simon Tatham's bottom-up merge sort, relinking the insertion-order list in place. */
module HashSort {
  import opened Buckets
  import opened Sequences
  import opened StableSort

  /** The `next` links of a list whose last element ends it. */
  ghost predicate NextLinked(s: seq<Item>)
    reads s`next
  {
    forall i {:trigger s[i].next} :: 0 <= i < |s| ==> s[i].next == At(s, i + 1)
  }

  /** The `next` links inside a run; where the last one points is left open. */
  ghost predicate RunLinked(s: seq<Item>)
    reads s`next
  {
    forall i {:trigger s[i].next} :: 0 <= i < |s| - 1 ==> s[i].next == s[i + 1]
  }

  ghost predicate PrevLinked(s: seq<Item>)
    reads s`prev
  {
    forall i {:trigger s[i].prev} :: 0 <= i < |s| ==> s[i].prev == At(s, i - 1)
  }

  ghost function Last(s: seq<Item>): Item? { At(s, |s| - 1) }

  /** The output list from `list` to `tail`; the `next` of `tail` is not set yet. */
  ghost predicate Output(list: Item?, tail: Item?, out: seq<Item>)
    reads out`prev, out`next
  {
    list == At(out, 0) && tail == Last(out) && RunLinked(out) && PrevLinked(out)
  }

  /** Append `e` to the output list. */
  method Emit(list: Item?, tail: Item?, e: Item, ghost out: seq<Item>) returns (list': Item?)
    requires Output(list, tail, out) && Distinct(out + [e])
    modifies e`prev, (if tail == null then {} else {tail})`next
    ensures Output(list', e, out + [e])
  {
    list' := list;
    if tail != null {
      tail.next := e;
    } else {
      list' := e;
    }
    e.prev := tail;
    assert forall i :: 0 <= i < |out| ==> (out + [e])[i] == out[i];
  }

  /** Step over at most `n` elements: the length of the left run and the start of the right one. */
  method Advance(p: Item, n: nat, ghost s: seq<Item>) returns (psize: nat, q: Item?)
    requires s != [] && s[0] == p && NextLinked(s) && n > 0
    ensures psize == |Take(s, n)| && q == At(s, psize)
  {
    q := p;
    psize := 0;
    var i := 0;
    while i < n
      invariant i == psize < |s| && psize <= n && q == At(s, psize)
      decreases n - i
    {
      psize := psize + 1;
      assert q == s[psize - 1];
      q := q.next;
      if q == null { break; }
      i := i + 1;
    }
  }

  // ----- what one merge of two runs leaves to do -----

  /** The output so far followed by what merging the rest of the two runs will add. */
  ghost function Pending(out: seq<Item>, p: seq<Item>, q: seq<Item>, qsize: nat, cmp: (Entry, Entry) -> int): seq<Entry>
    reads out`value, p`value, q`value
  {
    Entries(out) + Merge(Entries(p), Take(Entries(q), qsize), cmp)
  }

  lemma PendingLeft(out: seq<Item>, p: seq<Item>, q: seq<Item>, qsize: nat, cmp: (Entry, Entry) -> int)
    requires p != []
    requires qsize == 0 || q == [] || cmp(Entries(p)[0], Entries(q)[0]) <= 0
    ensures Pending(out, p, q, qsize, cmp) == Pending(out + [p[0]], p[1..], q, qsize, cmp)
  {
    hide Merge;
    EntriesOfAppend(out, p[0]);
    MergeFromLeft(Entries(p), Take(Entries(q), qsize), cmp);
    assert Entries(p)[1..] == Entries(p[1..]);
    Assoc(Entries(out), [Entries(p)[0]], Merge(Entries(p[1..]), Take(Entries(q), qsize), cmp));
  }

  lemma PendingRight(out: seq<Item>, p: seq<Item>, q: seq<Item>, qsize: nat, cmp: (Entry, Entry) -> int)
    requires qsize > 0 && q != []
    requires p == [] || cmp(Entries(p)[0], Entries(q)[0]) > 0
    ensures Pending(out, p, q, qsize, cmp) == Pending(out + [q[0]], p, q[1..], qsize - 1, cmp)
    ensures Drop(Entries(q), qsize) == Drop(Entries(q[1..]), qsize - 1)
  {
    hide Merge;
    EntriesOfAppend(out, q[0]);
    assert Entries(q)[1..] == Entries(q[1..]);
    TakeDropTail(Entries(q), qsize);
    MergeFromRight(Entries(p), Take(Entries(q), qsize), cmp);
    Assoc(Entries(out), [Entries(q)[0]], Merge(Entries(p), Take(Entries(q[1..]), qsize - 1), cmp));
  }

  lemma TakeDropTail<T>(s: seq<T>, n: nat)
    requires n > 0 && s != []
    ensures Take(s, n) != [] && Take(s, n)[0] == s[0] && Take(s, n)[1..] == Take(s[1..], n - 1)
    ensures Drop(s, n) == Drop(s[1..], n - 1)
  {
  }

  /** The three lists are one list without repetitions, taken apart. */
  ghost predicate Parts(all: multiset<Item>, out: seq<Item>, p: seq<Item>, q: seq<Item>) {
    all == multiset(out) + multiset(p) + multiset(q) && forall x :: x in all ==> all[x] == 1
  }

  lemma PartsAreApart(all: multiset<Item>, out: seq<Item>, p: seq<Item>, q: seq<Item>)
    requires Parts(all, out, p, q)
    ensures forall x :: x in p ==> x !in out && x !in q
    ensures forall x :: x in q ==> x !in out
    ensures Distinct(out) && forall x :: x in out ==> x in all
  {
    forall i, j | 0 <= i < j < |out| ensures out[i] != out[j] {
      assert out[i] in all;
      Once(out, i, j);
    }
    forall x | x in p ensures x !in out && x !in q {
      assert x in multiset(p);
      assert all[x] == multiset(out)[x] + multiset(p)[x] + multiset(q)[x];
      assert x !in multiset(out) && x !in multiset(q);
    }
    forall x | x in q ensures x !in out {
      assert x in multiset(q);
      assert all[x] == multiset(out)[x] + multiset(p)[x] + multiset(q)[x];
      assert x !in multiset(out);
    }
  }

  lemma Once(s: seq<Item>, i: nat, j: nat)
    requires i < j < |s| && multiset(s)[s[i]] <= 1
    ensures s[i] != s[j]
  {
    assert s == s[..i] + [s[i]] + s[i + 1..j] + [s[j]] + s[j + 1..];
  }

  lemma PartsLeft(all: multiset<Item>, out: seq<Item>, p: seq<Item>, q: seq<Item>)
    requires Parts(all, out, p, q) && p != []
    ensures Parts(all, out + [p[0]], p[1..], q)
  {
    assert p == [p[0]] + p[1..];
  }

  lemma PartsRight(all: multiset<Item>, out: seq<Item>, p: seq<Item>, q: seq<Item>)
    requires Parts(all, out, p, q) && q != []
    ensures Parts(all, out + [q[0]], p, q[1..])
  {
    assert q == [q[0]] + q[1..];
  }

  lemma RunTail(s: seq<Item>)
    requires RunLinked(s) && s != []
    ensures RunLinked(s[1..]) && (|s| > 1 ==> s[0].next == s[1])
  {
  }

  lemma NextTail(s: seq<Item>)
    requires NextLinked(s) && s != []
    ensures NextLinked(s[1..]) && s[0].next == At(s[1..], 0)
  {
  }

  lemma HeadEntry(s: seq<Item>)
    requires s != []
    ensures Entries(s)[0] == Entry(s[0].key, s[0].value)
  {
  }

  /** State of the innermost loop: what is left of the two runs, and of `qsize`. */
  ghost predicate Cursors(p: Item?, psize: nat, q: Item?, pr: seq<Item>, qr: seq<Item>)
    reads pr`next, qr`next
  {
    && psize == |pr| && (pr != [] ==> p == pr[0]) && RunLinked(pr)
    && q == At(qr, 0) && NextLinked(qr)
  }

  /** Choose the next element: the four-way branch of HASH_SRT. */
  method Pick(p0: Item?, psize0: nat, q0: Item?, qsize0: nat, cmp: (Entry, Entry) -> int,
              ghost all: multiset<Item>, ghost out: seq<Item>, ghost pr0: seq<Item>, ghost qr0: seq<Item>)
    returns (e: Item, p: Item?, psize: nat, q: Item?, qsize: nat, ghost pr: seq<Item>, ghost qr: seq<Item>)
    requires Cursors(p0, psize0, q0, pr0, qr0) && Parts(all, out, pr0, qr0)
    requires psize0 > 0 || (qsize0 > 0 && q0 != null)
    ensures Cursors(p, psize, q, pr, qr) && Parts(all, out + [e], pr, qr)
    ensures Pending(out + [e], pr, qr, qsize, cmp) == Pending(out, pr0, qr0, qsize0, cmp)
    ensures Drop(Entries(qr), qsize) == Drop(Entries(qr0), qsize0)
    ensures psize + |qr| < psize0 + |qr0|
  {
    hide Pending, Parts, Take, Drop, Entries, RunLinked, NextLinked;
    p, psize, q, qsize, pr, qr := p0, psize0, q0, qsize0, pr0, qr0;
    if pr != [] { HeadEntry(pr); RunTail(pr); }
    if qr != [] { HeadEntry(qr); NextTail(qr); }
    ghost var fromP;
    if psize == 0 {
      e := q;
      q := q.next;
      qsize := qsize - 1;
      fromP := false;
    } else if qsize == 0 || q == null {
      e := p;
      p := p.next;
      psize := psize - 1;
      fromP := true;
    } else if cmp(Entry(p.key, p.value), Entry(q.key, q.value)) <= 0 {
      e := p;
      p := p.next;
      psize := psize - 1;
      fromP := true;
    } else {
      e := q;
      q := q.next;
      qsize := qsize - 1;
      fromP := false;
    }
    if fromP {
      PendingLeft(out, pr, qr, qsize, cmp);
      PartsLeft(all, out, pr, qr);
      pr := pr[1..];
    } else {
      PendingRight(out, pr, qr, qsize0, cmp);
      PartsRight(all, out, pr, qr);
      qr := qr[1..];
    }
  }

  /** The inner loop of HASH_SRT: merge the run `pr` at `p` with the first `n` elements of `qr` at `q`. */
  method MergeTwo(list: Item?, tail: Item?, p0: Item?, psize0: nat, q0: Item?, n: nat, cmp: (Entry, Entry) -> int,
                  ghost all: multiset<Item>, ghost out0: seq<Item>, ghost pr0: seq<Item>, ghost qr0: seq<Item>)
    returns (list': Item?, tail': Item?, q: Item?, ghost out: seq<Item>, ghost qr: seq<Item>)
    requires Output(list, tail, out0) && Cursors(p0, psize0, q0, pr0, qr0) && Parts(all, out0, pr0, qr0)
    modifies all`prev, all`next
    ensures Output(list', tail', out) && tail' == Last(out)
    ensures q == At(qr, 0) && NextLinked(qr) && Parts(all, out, [], qr)
    ensures Entries(out) == old(Pending(out0, pr0, qr0, n, cmp)) && Entries(qr) == old(Drop(Entries(qr0), n))
  {
    hide Pending, Parts, Take, Drop, Entries, RunLinked, NextLinked;
    list', tail', q, out, qr := list, tail, q0, out0, qr0;
    var p, psize: nat, qsize: nat := p0, psize0, n;
    ghost var pr := pr0;
    ghost var result, rest := Pending(out, pr, qr, n, cmp), Drop(Entries(qr), n);
    while psize > 0 || (qsize > 0 && q != null)
      invariant Output(list', tail', out) && Cursors(p, psize, q, pr, qr) && Parts(all, out, pr, qr)
      invariant tail' == Last(out)
      invariant Pending(out, pr, qr, qsize, cmp) == result && Drop(Entries(qr), qsize) == rest
      decreases psize + |qr|
    {
      hide Output, Cursors;
      var e;
      e, p, psize, q, qsize, pr, qr := Pick(p, psize, q, qsize, cmp, all, out, pr, qr);
      PartsAreApart(all, out + [e], pr, qr);
      assert tail' == null || tail' in out + [e];
      list' := Emit(list', tail', e, out);
      tail', out := e, out + [e];
    }
    assert pr == [];
    NothingPending(out, qr, qsize, cmp);
  }

  lemma NothingPending(out: seq<Item>, q: seq<Item>, qsize: nat, cmp: (Entry, Entry) -> int)
    requires qsize == 0 || q == []
    ensures Pending(out, [], q, qsize, cmp) == Entries(out)
    ensures Drop(Entries(q), qsize) == Entries(q)
  {
  }

  lemma EntriesOfSlice(s: seq<Item>, k: nat)
    requires k <= |s|
    ensures Entries(s[..k]) == Entries(s)[..k] && Entries(s[k..]) == Entries(s)[k..]
  {
    hide Entries;
    var a, b, e := Entries(s[..k]), Entries(s[k..]), Entries(s);
    assert a == e[..k] by {
      forall i | 0 <= i < k ensures a[i] == e[..k][i] { }
    }
    assert b == e[k..] by {
      forall i | 0 <= i < |s| - k ensures b[i] == e[k..][i] { }
    }
  }

  lemma TwoRunsLength<T>(s: seq<T>, n: nat)
    ensures |Drop(Drop(s, n), n)| == if |s| > 2 * n then |s| - 2 * n else 0
  {
  }

  /** Cut the rest of the list into the next run of `n` and what follows it. */
  lemma CutRun(all: multiset<Item>, out: seq<Item>, rest: seq<Item>, n: nat, k: nat, p: Item, q: Item?)
    requires n > 0 && k == |Take(rest, n)| && rest != [] && rest[0] == p && q == At(rest, k)
    requires NextLinked(rest) && Parts(all, out, [], rest)
    ensures k <= |rest| && Cursors(p, k, q, rest[..k], rest[k..]) && Parts(all, out, rest[..k], rest[k..])
    ensures Entries(rest[..k]) == Take(Entries(rest), n) && Entries(rest[k..]) == Drop(Entries(rest), n)
  {
    CutEntries(rest, n, k);
    CutParts(all, out, rest, k);
  }

  lemma CutEntries(rest: seq<Item>, n: nat, k: nat)
    requires k == |Take(rest, n)|
    ensures Entries(rest[..k]) == Take(Entries(rest), n) && Entries(rest[k..]) == Drop(Entries(rest), n)
  {
    hide Entries;
    EntriesOfSlice(rest, k);
  }

  lemma CutParts(all: multiset<Item>, out: seq<Item>, rest: seq<Item>, k: nat)
    requires k <= |rest| && Parts(all, out, [], rest)
    ensures Parts(all, out, rest[..k], rest[k..])
  {
    assert rest == rest[..k] + rest[k..];
    assert multiset(rest) == multiset(rest[..k]) + multiset(rest[k..]);
  }

  lemma HeadIsNew(s: seq<Item>)
    requires Distinct(s) && s != []
    ensures s[0] !in multiset(s[1..])
  {
    assert forall i :: 0 <= i < |s[1..]| ==> s[1..][i] == s[i + 1] != s[0];
    assert s[0] !in s[1..];
  }

  lemma WholeInParts(s: seq<Item>)
    requires Distinct(s)
    ensures Parts(multiset(s), [], [], s) && Output(null, null, []) && Entries([]) == []
    decreases |s|
  {
    if s != [] {
      WholeInParts(s[1..]);
      HeadIsNew(s);
      assert s == [s[0]] + s[1..];
    }
  }

  lemma RunsStep<T>(a: seq<T>, e: seq<T>, n: nat, cmp: (T, T) -> int)
    requires n > 0 && e != []
    ensures a + MergeRuns(e, n, cmp)
         == (a + Merge(Take(e, n), Take(Drop(e, n), n), cmp)) + MergeRuns(Drop(Drop(e, n), n), n, cmp)
  {
    hide Merge, Take, Drop;
    Assoc(a, Merge(Take(e, n), Take(Drop(e, n), n), cmp), MergeRuns(Drop(Drop(e, n), n), n, cmp));
  }

  lemma NothingLeft(all: multiset<Item>, out: seq<Item>, n: nat, cmp: (Entry, Entry) -> int)
    requires Parts(all, out, [], []) && n > 0
    ensures multiset(out) == all && Entries(out) + MergeRuns(Entries([]), n, cmp) == Entries(out)
  {
  }

  lemma SameElements(s: seq<Item>, t: seq<Item>)
    requires multiset(s) == multiset(t)
    ensures |s| == |t| && forall x :: x in t <==> x in s
  {
    assert |multiset(s)| == |s| && |multiset(t)| == |t|;
    forall x ensures x in t <==> x in s {
      assert x in multiset(s) <==> x in multiset(t);
    }
  }

  /** The output list gets its end. */
  method Terminate(list: Item?, tail: Item?, ghost out: seq<Item>, ghost s: seq<Item>)
    requires Output(list, tail, out) && Parts(multiset(s), out, [], []) && s != []
    modifies s`next
    ensures OrderLinked(out) && multiset(out) == multiset(s) && list == At(out, 0) && tail == Last(out)
  {
    PartsAreApart(multiset(s), out, [], []);
    SameElements(s, out);
    hide Parts;
    assert tail == out[|out| - 1] && tail in out;
    if tail != null {
      tail.next := null;
    }
  }

  /** Body of the middle loop of HASH_SRT: cut off two runs and merge them. */
  method MergePair(list: Item?, tail: Item?, p: Item, n: nat, cmp: (Entry, Entry) -> int,
                   ghost all: multiset<Item>, ghost out: seq<Item>, ghost rest: seq<Item>)
    returns (list': Item?, tail': Item?, q: Item?, ghost out': seq<Item>, ghost rest': seq<Item>)
    requires Output(list, tail, out) && Parts(all, out, [], rest) && n > 0
    requires rest != [] && p == rest[0] && NextLinked(rest)
    modifies all`prev, all`next
    ensures Output(list', tail', out') && tail' == Last(out') && Parts(all, out', [], rest')
    ensures q == At(rest', 0) && NextLinked(rest')
    ensures Entries(out') + MergeRuns(Entries(rest'), n, cmp) == old(Entries(out) + MergeRuns(Entries(rest), n, cmp))
    ensures |rest'| == if |rest| > 2 * n then |rest| - 2 * n else 0
  {
    hide Pending, Parts, Take, Drop, Entries, NextLinked, MergeRuns, Output, Cursors;
    var psize, q0 := Advance(p, n, rest);
    ghost var e := Entries(rest);
    CutRun(all, out, rest, n, psize, p, q0);
    RunsStep(Entries(out), e, n, cmp);
    TwoRunsLength(e, n);
    PendingIs(out, rest[..psize], rest[psize..], n, cmp);
    list', tail', q, out', rest' := MergeTwo(list, tail, p, psize, q0, n, cmp, all, out, rest[..psize], rest[psize..]);
    assert Entries(rest') == Drop(Drop(e, n), n);
  }

  lemma PendingIs(out: seq<Item>, p: seq<Item>, q: seq<Item>, n: nat, cmp: (Entry, Entry) -> int)
    ensures Pending(out, p, q, n, cmp) == Entries(out) + Merge(Entries(p), Take(Entries(q), n), cmp)
  {
  }

  /** One pass of HASH_SRT over the whole list. */
  method MergePass(first: Item, n: nat, cmp: (Entry, Entry) -> int, ghost s: seq<Item>)
    returns (list: Item?, tail: Item?, nmerges: nat, ghost out: seq<Item>)
    requires s != [] && s[0] == first && NextLinked(s) && Distinct(s) && n > 0
    modifies multiset(s)`prev, multiset(s)`next
    ensures OrderLinked(out) && list == At(out, 0) && tail == Last(out)
    ensures multiset(out) == multiset(s) && Entries(out) == old(MergeRuns(Entries(s), n, cmp))
    ensures nmerges <= 1 <==> |s| <= 2 * n
  {
    hide Parts, Entries, NextLinked, OrderLinked, Output, Distinct, MergeRuns;
    var p: Item? := first;
    list, tail, nmerges, out := null, null, 0, [];
    ghost var all, rest, result := multiset(s), s, MergeRuns(Entries(s), n, cmp);
    WholeInParts(s);
    while p != null
      invariant Output(list, tail, out)
      invariant p == At(rest, 0) && NextLinked(rest) && Parts(all, out, [], rest)
      invariant Entries(out) + MergeRuns(Entries(rest), n, cmp) == result
      invariant nmerges == 0 ==> |rest| == |s|
      invariant nmerges == 1 ==> |rest| == if |s| > 2 * n then |s| - 2 * n else 0
      invariant nmerges > 1 ==> |s| > 2 * n
      decreases |rest|
    {
      nmerges := nmerges + 1;
      list, tail, p, out, rest := MergePair(list, tail, p, n, cmp, all, out, rest);
    }
    NothingLeft(all, out, n, cmp);
    assert rest == [] && Entries(out) == result;
    hide Last;
    Terminate(list, tail, out, s);
    assert Entries(out) == result;
  }

  /** HASH_SRT on the list `s` that `head` starts. */
  method Sort(head: Item, cmp: (Entry, Entry) -> int, ghost s: seq<Item>)
    returns (list: Item?, tail: Item?, ghost out: seq<Item>)
    requires s != [] && s[0] == head && NextLinked(s) && Distinct(s)
    modifies multiset(s)`prev, multiset(s)`next
    ensures OrderLinked(out) && list == At(out, 0) && tail == Last(out)
    ensures multiset(out) == multiset(s) && Entries(out) == old(BottomUp(Entries(s), 1, cmp))
  {
    hide Entries, NextLinked, OrderLinked, MergeRuns, BottomUp, Distinct;
    var insize, looping, nmerges := 1, true, 0;
    list, out := head, s;
    tail := null;
    ghost var result := BottomUp(Entries(s), 1, cmp);
    while looping
      invariant insize > 0 && out != [] && list == out[0] && NextLinked(out) && Distinct(out)
      invariant multiset(out) == multiset(s)
      invariant looping ==> BottomUp(Entries(out), insize, cmp) == result
      invariant !looping ==> OrderLinked(out) && tail == Last(out) && Entries(out) == result
      decreases looping, |s| - insize
    {
      BottomUpStep(Entries(out), insize, cmp);
      ghost var before := out;
      list, tail, nmerges, out := MergePass(list, insize, cmp, out);
      SortedAgain(before, out);
      SameElements(s, out);
      if nmerges <= 1 {
        looping := false;
      }
      insize := insize * 2;
    }
  }

  lemma BottomUpStep<T>(s: seq<T>, n: nat, cmp: (T, T) -> int)
    requires n > 0
    ensures BottomUp(s, n, cmp)
         == if |s| <= 2 * n then MergeRuns(s, n, cmp) else BottomUp(MergeRuns(s, n, cmp), 2 * n, cmp)
  {
  }

  lemma SortedAgain(s: seq<Item>, t: seq<Item>)
    requires multiset(s) == multiset(t) && Distinct(s) && OrderLinked(t)
    ensures Distinct(t) && |t| == |s| && NextLinked(t)
  {
    WholeInParts(s);
    PartsAreApart(multiset(s), t, [], []);
    SameElements(s, t);
  }
}
