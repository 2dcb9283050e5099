/** The buckets of uthash.h's intrusive hash table and their expansion. An element is linked twice: into
    the insertion-order list (`prev`/`next`) and into the chain of its bucket (`hhPrev`/`hhNext`). The
    element and its embedded UT_hash_handle are one object here; `hho` arithmetic is the identity. */
module Buckets {
  import opened Bits
  import opened Sequences

  const INITIAL_NUM_BUCKETS_LOG2 := 5
  const BKT_CAPACITY_THRESH := 10

  /** struct setting with its hash handle. */
  class Item {
    const key: string
    var value: string
    var tbl: Table?
    var prev: Item?
    var next: Item?
    var hhPrev: Item?
    var hhNext: Item?
    var keylen: nat
    var hashv: nat

    constructor (key: string, value: string)
      ensures this.key == key && this.value == value
    {
      this.key := key;
      this.value := value;
    }
  }

  datatype Bucket = Bucket(head: Item?, count: nat, expandMult: nat)

  ghost function At(s: seq<Item>, i: int): Item? { if 0 <= i < |s| then s[i] else null }

  ghost function SetOf(s: seq<Item>): set<Item> { set x | x in s }

  ghost function Without<T>(s: seq<T>, k: nat): seq<T>
    requires k < |s|
  {
    s[..k] + s[k + 1..]
  }

  lemma WithoutAt<T>(s: seq<T>, k: nat)
    requires k < |s|
    ensures |Without(s, k)| == |s| - 1
    ensures forall i {:trigger Without(s, k)[i]} :: 0 <= i < |s| - 1 ==>
              Without(s, k)[i] == s[if i < k then i else i + 1]
  {
  }

  lemma Apart<T>(s: seq<T>, i: int, j: int)
    requires Distinct(s)
    ensures 0 <= i < |s| && 0 <= j < |s| && s[i] == s[j] ==> i == j
  {
  }

  lemma DistinctWith<T>(s: seq<T>, x: T)
    requires Distinct(s) && x !in s
    ensures Distinct(s + [x])
  {
  }

  lemma WithoutDistinct<T>(s: seq<T>, k: nat)
    requires Distinct(s) && k < |s|
    ensures Distinct(Without(s, k))
  {
    WithoutAt(s, k);
  }

  // ----- the insertion-order list -----

  datatype Entry = Entry(key: string, value: string)

  ghost predicate OrderLinked(s: seq<Item>)
    reads s`prev, s`next
  {
    && (forall i {:trigger s[i].prev} :: 0 <= i < |s| ==> s[i].prev == At(s, i - 1))
    && (forall i {:trigger s[i].next} :: 0 <= i < |s| ==> s[i].next == At(s, i + 1))
  }

  /** The key/value pairs of a list of elements. */
  ghost function Entries(s: seq<Item>): (r: seq<Entry>)
    reads s`value
    ensures |r| == |s|
    ensures forall i :: 0 <= i < |s| ==> r[i] == Entry(s[i].key, s[i].value)
  {
    if s == [] then [] else [Entry(s[0].key, s[0].value)] + Entries(s[1..])
  }

  lemma EntriesOfAppend(s: seq<Item>, e: Item)
    ensures Entries(s + [e]) == Entries(s) + [Entry(e.key, e.value)]
  {
  }

  // ----- bucket chains -----

  /** HASH_TO_BKT */
  function Home(hashv: nat, n: nat): (b: nat)
    requires n > 0
    ensures b < n
  {
    And(hashv, n - 1)
  }

  ghost predicate ChainLinked(s: seq<Item>)
    reads s`hhPrev, s`hhNext
  {
    && (forall i {:trigger s[i].hhPrev} :: 0 <= i < |s| ==> s[i].hhPrev == At(s, i - 1))
    && (forall i {:trigger s[i].hhNext} :: 0 <= i < |s| ==> s[i].hhNext == At(s, i + 1))
  }

  /** A bucket heads a doubly linked chain and counts it. */
  ghost predicate BucketOk(bkt: Bucket, chain: seq<Item>)
    reads chain`hhPrev, chain`hhNext
  {
    bkt.head == At(chain, 0) && bkt.count == |chain| && Distinct(chain) && ChainLinked(chain)
  }

  /** Every item is in the chain of its home bucket and in no other. */
  ghost predicate Spread(chains: seq<seq<Item>>, items: set<Item>)
    reads items`hashv
  {
    && |chains| > 0
    && (forall b, i :: 0 <= b < |chains| && 0 <= i < |chains[b]| ==>
          chains[b][i] in items && Home(chains[b][i].hashv, |chains|) == b)
    && (forall x :: x in items ==> x in chains[Home(x.hashv, |chains|)])
  }

  ghost predicate BucketsOk(a: array<Bucket>, chains: seq<seq<Item>>, items: set<Item>)
    reads a, items`hhPrev, items`hhNext, items`hashv
  {
    && a.Length == |chains| > 0
    && Spread(chains, items)
    && forall b :: 0 <= b < |chains| ==> BucketOk(a[b], chains[b])
  }

  /** Chains of different buckets share nothing. */
  lemma Elsewhere(chains: seq<seq<Item>>, items: set<Item>, b: nat)
    requires Spread(chains, items) && b < |chains|
    ensures forall y :: y in chains[b] ==> y in items
    ensures forall c, i :: 0 <= c < |chains| && c != b && 0 <= i < |chains[c]| ==>
              chains[c][i] in items && chains[c][i] !in chains[b]
  {
  }

  lemma SpreadWith(chains: seq<seq<Item>>, items: set<Item>, b: nat, x: Item)
    requires Spread(chains, items) && b == Home(x.hashv, |chains|)
    ensures Spread(chains[b := [x] + chains[b]], items + {x})
  {
  }

  lemma SpreadWithout(chains: seq<seq<Item>>, items: set<Item>, b: nat, k: nat)
    requires Spread(chains, items) && b < |chains| && k < |chains[b]| && Distinct(chains[b])
    ensures Spread(chains[b := Without(chains[b], k)], items - {chains[b][k]})
  {
    var chains', x := chains[b := Without(chains[b], k)], chains[b][k];
    forall y | y in items - {x} ensures y in chains'[Home(y.hashv, |chains|)] {
      var c := Home(y.hashv, |chains|);
      var i :| 0 <= i < |chains[c]| && chains[c][i] == y;
      if c == b {
        assert Without(chains[b], k)[if i < k then i else i - 1] == y;
      }
    }
    forall c, i | 0 <= c < |chains'| && 0 <= i < |chains'[c]|
      ensures chains'[c][i] in items - {x} && Home(chains'[c][i].hashv, |chains|) == c
    {
      if c == b {
        assert chains'[b][i] == chains[b][if i < k then i else i + 1];
      } else {
        assert chains'[c][i] == chains[c][i];
      }
    }
  }

  method LinkFirst(x: Item, head: Item?, ghost chain: seq<Item>)
    requires ChainLinked(chain) && head == At(chain, 0) && x !in chain && Distinct(chain)
    modifies x`hhPrev, x`hhNext, (if head == null then {} else {head})`hhPrev
    ensures ChainLinked([x] + chain) && Distinct([x] + chain)
  {
    x.hhNext := head;
    x.hhPrev := null;
    if head != null {
      head.hhPrev := x;
    }
  }

  method Unlink(x: Item, ghost chain: seq<Item>, ghost k: nat)
    requires ChainLinked(chain) && Distinct(chain) && k < |chain| && chain[k] == x
    modifies chain`hhPrev, chain`hhNext
    ensures ChainLinked(Without(chain, k)) && Distinct(Without(chain, k))
  {
    WithoutAt(chain, k);
    hide Without, Distinct;
    ghost var rest := Without(chain, k);
    if x.hhPrev != null {
      x.hhPrev.hhNext := x.hhNext;
    }
    if x.hhNext != null {
      x.hhNext.hhPrev := x.hhPrev;
    }
    forall i | 0 <= i < |rest| ensures rest[i].hhPrev == At(rest, i - 1) && rest[i].hhNext == At(rest, i + 1) {
      var j := if i < k then i else i + 1;
      Apart(chain, j, k - 1);
      Apart(chain, j, k + 1);
    }
    WithoutDistinct(chain, k);
  }

  /** Put `x` in front of the chain of bucket `b`, count it and set the bucket's multiplier. */
  method Prepend(a: array<Bucket>, ghost chains: seq<seq<Item>>, ghost items: set<Item>, b: nat, x: Item, mult: nat)
    requires BucketsOk(a, chains, items) && x !in items
    requires b == Home(x.hashv, |chains|)
    modifies a, x`hhPrev, x`hhNext, items`hhPrev
    ensures BucketsOk(a, chains[b := [x] + chains[b]], items + {x})
    ensures a[b] == Bucket(x, old(a[b]).count + 1, mult)
    ensures forall c :: 0 <= c < a.Length && c != b ==> a[c] == old(a[c])
  {
    hide Home;
    a[b] := a[b].(count := a[b].count + 1, expandMult := mult);
    LinkFirst(x, a[b].head, chains[b]);
    a[b] := a[b].(head := x);
    assert BucketOk(a[b], [x] + chains[b]);
    Elsewhere(chains, items, b);
    forall c | 0 <= c < |chains| && c != b ensures BucketOk(a[c], chains[c]) {
      assert old(BucketOk(a[c], chains[c]));
    }
    SpreadWith(chains, items, b, x);
  }

  /** HASH_DEL_IN_BKT */
  method DelInBkt(a: array<Bucket>, ghost chains: seq<seq<Item>>, ghost items: set<Item>, b: nat, x: Item, ghost k: nat)
    requires BucketsOk(a, chains, items)
    requires b < |chains| && k < |chains[b]| && chains[b][k] == x
    modifies a, items`hhPrev, items`hhNext
    ensures BucketsOk(a, chains[b := Without(chains[b], k)], items - {x})
    ensures forall c :: 0 <= c < a.Length ==> a[c].expandMult == old(a[c].expandMult)
  {
    hide Home;
    a[b] := a[b].(count := a[b].count - 1);
    if a[b].head == x {
      a[b] := a[b].(head := x.hhNext);
    }
    Unlink(x, chains[b], k);
    assert BucketOk(a[b], Without(chains[b], k));
    Elsewhere(chains, items, b);
    forall c | 0 <= c < |chains| && c != b ensures BucketOk(a[c], chains[c]) {
      assert old(BucketOk(a[c], chains[c]));
    }
    SpreadWithout(chains, items, b, k);
  }

  // ----- the table and bucket expansion -----

  /** Sum over the buckets of the items that sit beyond the ideal chain length. */
  ghost function Excess(chains: seq<seq<Item>>, ideal: nat): nat {
    if chains == [] then 0
    else (if |chains[0]| > ideal then |chains[0]| - ideal else 0) + Excess(chains[1..], ideal)
  }

  /** Length of the run of ineffective expansions at the end of the history. */
  ghost function IneffectiveStreak(history: seq<bool>): nat {
    if history == [] || history[|history| - 1] then 0
    else 1 + IneffectiveStreak(history[..|history| - 1])
  }

  lemma {:induction false} ExcessOfPrepend(chains: seq<seq<Item>>, b: nat, x: Item, ideal: nat)
    requires b < |chains|
    ensures Excess(chains[b := [x] + chains[b]], ideal)
         == Excess(chains, ideal) + (if |chains[b]| + 1 > ideal then 1 else 0)
    decreases |chains|
  {
    var chains' := chains[b := [x] + chains[b]];
    if b == 0 {
      assert chains'[1..] == chains[1..];
    } else {
      ExcessOfPrepend(chains[1..], b - 1, x, ideal);
      assert chains'[1..] == chains[1..][b - 1 := [x] + chains[1..][b - 1]];
    }
  }

  lemma {:induction false} ExcessOfNothing(chains: seq<seq<Item>>, ideal: nat)
    requires forall b :: 0 <= b < |chains| ==> chains[b] == []
    ensures Excess(chains, ideal) == 0
    decreases |chains|
  {
    if chains != [] {
      ExcessOfNothing(chains[1..], ideal);
    }
  }

  function Multiplier(count: nat, ideal: nat): nat { if count > ideal > 0 then count / ideal else 0 }

  /** `c` is n / b, rounded up. */
  ghost predicate IsCeiling(c: nat, n: nat, b: nat) {
    n <= c * b && (n == 0 ==> c == 0) && (n > 0 ==> c > 0 && (c - 1) * b < n)
  }

  lemma CeilingIsQuotient(c: nat, n: nat, b: nat)
    requires b > 0
    ensures IsCeiling(c, n, b) <==> c == (n + b - 1) / b
  {
    QuotientIs(n + b - 1, b, c);
    assert (c + 1) * b == c * b + b && (c - 1) * b == c * b - b;
    if n > 0 && c == 0 {
      assert c * b == 0;
    }
  }

  function IdealChainMaxlen(numItems: nat, numBuckets: nat, log2NumBuckets: nat): (ideal: nat)
    requires numBuckets == Pow2(log2NumBuckets)
    ensures IsCeiling(ideal, numItems, 2 * numBuckets)
    ensures ideal == 0 ==> numItems == 0
  {
    CeilByShift(numItems, log2NumBuckets + 1);
    Shr(numItems, log2NumBuckets + 1) + (if And(numItems, numBuckets * 2 - 1) != 0 then 1 else 0)
  }

  /** A bucket array filled during an expansion: overlong buckets have their multiplier and
      `nonideal` counts the items beyond the ideal length. */
  ghost predicate Rehashing(a: array<Bucket>, chains: seq<seq<Item>>, items: set<Item>, ideal: nat, nonideal: nat)
    reads a, items`hhPrev, items`hhNext, items`hashv
  {
    && a.Length == |chains| > 0
    && BucketsOk(a, chains, items)
    && nonideal == Excess(chains, ideal)
    && forall c :: 0 <= c < a.Length ==> a[c].expandMult == Multiplier(a[c].count, ideal)
  }

  lemma PlaceInChain(a: array<Bucket>, chains: seq<seq<Item>>, items: set<Item>, x: Item) returns (k: nat)
    requires BucketsOk(a, chains, items) && x in items
    ensures var chain := chains[Home(x.hashv, |chains|)]; k < |chain| && chain[k] == x
  {
    var chain := chains[Home(x.hashv, |chains|)];
    k :| k < |chain| && chain[k] == x;
  }

  lemma CountIsLength(a: array<Bucket>, chains: seq<seq<Item>>, items: set<Item>, b: nat)
    requires BucketsOk(a, chains, items) && b < |chains|
    ensures a[b].count == |chains[b]|
  {
    assert BucketOk(a[b], chains[b]);
  }

  /** Body of the inner loop of HASH_EXPAND_BUCKETS: move one item to its new bucket. */
  method Rehash(a: array<Bucket>, ghost chains: seq<seq<Item>>, ghost moved: set<Item>,
                x: Item, ideal: nat, nonideal: nat)
    returns (ghost chains': seq<seq<Item>>, nonideal': nat)
    requires Rehashing(a, chains, moved, ideal, nonideal) && x !in moved && ideal > 0
    modifies a, x`hhPrev, x`hhNext, moved`hhPrev
    ensures |chains'| == |chains| && Rehashing(a, chains', moved + {x}, ideal, nonideal')
  {
    hide BucketsOk, Home, Excess;
    var b := Home(x.hashv, a.Length);
    CountIsLength(a, chains, moved, b);
    var count, mult := a[b].count + 1, a[b].expandMult;
    nonideal' := nonideal;
    if count > ideal {
      nonideal' := nonideal' + 1;
      mult := count / ideal;
    }
    ExcessOfPrepend(chains, b, x, ideal);
    chains' := chains[b := [x] + chains[b]];
    Prepend(a, chains, moved, b, x, mult);
  }

  /** The inner loop of HASH_EXPAND_BUCKETS: move one old chain. */
  method RehashChain(a: array<Bucket>, ghost chains: seq<seq<Item>>, ghost moved: set<Item>,
                     first: Item?, ghost chain: seq<Item>, ideal: nat, nonideal: nat)
    returns (ghost chains': seq<seq<Item>>, nonideal': nat)
    requires Rehashing(a, chains, moved, ideal, nonideal) && (chain != [] ==> ideal > 0)
    requires first == At(chain, 0) && Distinct(chain) && SetOf(chain) !! moved
    requires forall i {:trigger chain[i].hhNext} :: 0 <= i < |chain| ==> chain[i].hhNext == At(chain, i + 1)
    modifies a, (moved + SetOf(chain))`hhPrev, SetOf(chain)`hhNext
    ensures |chains'| == |chains| && Rehashing(a, chains', moved + SetOf(chain), ideal, nonideal')
  {
    hide Rehashing, BucketsOk;
    chains', nonideal' := chains, nonideal;
    var thh := first;
    ghost var k := 0;
    ghost var done := moved;
    while thh != null
      invariant k <= |chain| && thh == At(chain, k)
      invariant |chains'| == |chains| && Rehashing(a, chains', done, ideal, nonideal')
      invariant forall x :: x in done <==> x in moved || x in chain[..k]
      invariant forall i {:trigger chain[i].hhNext} :: k <= i < |chain| ==> chain[i].hhNext == At(chain, i + 1)
      decreases |chain| - k
    {
      var nxt := thh.hhNext;
      chains', nonideal' := Rehash(a, chains', done, thh, ideal, nonideal');
      done := done + {chain[k]};
      assert chain[..k + 1] == chain[..k] + [chain[k]];
      k := k + 1;
      thh := nxt;
    }
    assert chain[..k] == chain;
    assert done == moved + SetOf(chain);
  }

  lemma ChainIsHome(chains: seq<seq<Item>>, items: set<Item>, b: nat)
    requires Spread(chains, items) && b < |chains|
    ensures forall x :: x in SetOf(chains[b]) <==> x in items && Home(x.hashv, |chains|) == b
  {
  }

  ghost function NoChains(n: nat): seq<seq<Item>> { seq(n, _ => []) }

  lemma NothingRehashed(a: array<Bucket>, ideal: nat)
    requires a.Length > 0 && forall b :: 0 <= b < a.Length ==> a[b] == Bucket(null, 0, 0)
    ensures Rehashing(a, NoChains(a.Length), {}, ideal, 0)
  {
    ExcessOfNothing(NoChains(a.Length), ideal);
  }

  /** The outer loop of HASH_EXPAND_BUCKETS: fill the new bucket array from the old one. */
  method RehashAll(a: array<Bucket>, old_: array<Bucket>, ghost chains: seq<seq<Item>>, ghost items: set<Item>,
                   ideal: nat)
    returns (ghost chains': seq<seq<Item>>, nonideal: nat)
    requires BucketsOk(old_, chains, items) && (items != {} ==> ideal > 0)
    requires a != old_ && a.Length > 0
    requires forall b :: 0 <= b < a.Length ==> a[b] == Bucket(null, 0, 0)
    modifies a, items`hhPrev, items`hhNext
    ensures |chains'| == a.Length && Rehashing(a, chains', items, ideal, nonideal)
  {
    hide Rehashing, Home;
    ghost var moved: set<Item> := {};
    chains', nonideal := NoChains(a.Length), 0;
    NothingRehashed(a, ideal);
    var i := 0;
    while i < old_.Length
      invariant 0 <= i <= old_.Length
      invariant |chains'| == a.Length && Rehashing(a, chains', moved, ideal, nonideal)
      invariant forall x :: x in moved <==> x in items && Home(x.hashv, |chains|) < i
      invariant forall x :: x in items && x !in moved ==> x.hhNext == old(x.hhNext)
    {
      ghost var chain := chains[i];
      ChainIsHome(chains, items, i);
      assert old(BucketOk(old_[i], chain));
      chains', nonideal := RehashChain(a, chains', moved, old_[i].head, chain, ideal, nonideal);
      moved := moved + SetOf(chain);
      i := i + 1;
    }
    assert moved == items;
  }

  class Table {
    var buckets: array<Bucket>
    var numBuckets: nat
    var log2NumBuckets: nat
    var numItems: nat
    var tail: Item
    var idealChainMaxlen: nat
    var nonidealItems: nat
    var ineffExpands: nat
    var noexpand: nat

    ghost var chains: seq<seq<Item>>
    ghost var expansions: seq<bool>  // every expansion so far, true when it was effective

    /** Bucket count and expansion inhibition as functions of the expansion history. */
    ghost predicate Paced()
      reads `log2NumBuckets, `numBuckets, `ineffExpands, `noexpand, `expansions
    {
      && log2NumBuckets == INITIAL_NUM_BUCKETS_LOG2 + |expansions|
      && numBuckets == Pow2(log2NumBuckets)
      && ineffExpands == IneffectiveStreak(expansions) <= 2
      && noexpand == (if ineffExpands == 2 then 1 else 0)
    }

    ghost predicate Holds(items: set<Item>)
      reads `log2NumBuckets, `numBuckets, `ineffExpands, `noexpand, `expansions, `chains, `buckets
      reads buckets, items`hhPrev, items`hhNext, items`hashv
    {
      && Paced()
      && numBuckets == |chains| == buckets.Length
      && BucketsOk(buckets, chains, items)
    }

    /** What an expansion leaves in the statistics: `ideal` is the ceiling of items over buckets,
        the items beyond it are counted, and every overlong bucket gets its multiplier. */
    ghost predicate Balanced()
      requires numBuckets == |chains| == buckets.Length
      reads `numBuckets, `buckets, `chains, `idealChainMaxlen, `numItems, `nonidealItems, buckets
    {
      && IsCeiling(idealChainMaxlen, numItems, numBuckets)
      && nonidealItems == Excess(chains, idealChainMaxlen)
      && forall b :: 0 <= b < numBuckets ==>
           buckets[b].expandMult == Multiplier(buckets[b].count, idealChainMaxlen)
    }

    /** HASH_MAKE_TABLE */
    constructor (first: Item)
      ensures Holds({}) && fresh(buckets)
      ensures numItems == 0 && tail == first && expansions == [] && numBuckets == 32
      ensures forall b :: 0 <= b < buckets.Length ==> !Full(b)
    {
      buckets := new Bucket[Pow2(INITIAL_NUM_BUCKETS_LOG2)](_ => Bucket(null, 0, 0));
      numBuckets := Pow2(INITIAL_NUM_BUCKETS_LOG2);
      log2NumBuckets := INITIAL_NUM_BUCKETS_LOG2;
      numItems, tail := 0, first;
      idealChainMaxlen, nonidealItems, ineffExpands, noexpand := 0, 0, 0, 0;
      chains := seq(Pow2(INITIAL_NUM_BUCKETS_LOG2), _ => []);
      expansions := [];
    }

    /** HASH_EXPAND_BUCKETS: twice as many buckets, the same items. */
    method ExpandBuckets(ghost items: set<Item>)
      requires Holds(items) && numItems == |items| && noexpand != 1
      modifies this, items`hhPrev, items`hhNext
      ensures Holds(items) && Balanced() && fresh(buckets)
      ensures numBuckets == 2 * old(numBuckets)
      ensures expansions == old(expansions) + [nonidealItems <= numItems / 2]
      ensures numItems == old(numItems) && tail == old(tail)
    {
      hide Rehashing, BucketsOk, IsCeiling, IdealChainMaxlen, Multiplier, Excess, Pow2, IneffectiveStreak;
      var a := new Bucket[2 * numBuckets](_ => Bucket(null, 0, 0));
      var ideal := IdealChainMaxlen(numItems, numBuckets, log2NumBuckets);
      ghost var chains';
      var nonideal;
      chains', nonideal := RehashAll(a, buckets, chains, items, ideal);
      idealChainMaxlen, nonidealItems := ideal, nonideal;
      Swap(a, chains', items);
    }

    /** The tail of HASH_EXPAND_BUCKETS: install the new buckets and judge the expansion. */
    method Swap(a: array<Bucket>, ghost chains': seq<seq<Item>>, ghost items: set<Item>)
      requires Paced() && Rehashing(a, chains', items, idealChainMaxlen, nonidealItems) && noexpand != 1
      requires |chains'| == 2 * numBuckets
      modifies `buckets, `numBuckets, `log2NumBuckets, `ineffExpands, `noexpand, `chains, `expansions
      ensures Holds(items) && buckets == a && chains == chains' && numBuckets == 2 * old(numBuckets)
      ensures nonidealItems == Excess(chains, idealChainMaxlen)
      ensures forall b :: 0 <= b < numBuckets ==>
                buckets[b].expandMult == Multiplier(buckets[b].count, idealChainMaxlen)
      ensures expansions == old(expansions) + [nonidealItems <= numItems / 2]
    {
      hide BucketsOk;
      numBuckets := numBuckets * 2;
      log2NumBuckets := log2NumBuckets + 1;
      buckets := a;
      chains := chains';
      ineffExpands := if nonidealItems > Shr(numItems, 1) then ineffExpands + 1 else 0;
      if ineffExpands > 1 {
        noexpand := 1;
      }
      assert Shr(numItems, 1) == numItems / 2;
      expansions := expansions + [nonidealItems <= numItems / 2];
      assert expansions[..|expansions| - 1] == old(expansions);
    }

    /** Adding to bucket `b` now makes HASH_ADD_TO_BKT expand. */
    ghost predicate Full(b: nat)
      requires b < buckets.Length
      reads `buckets, `noexpand, buckets
    {
      buckets[b].count + 1 >= (buckets[b].expandMult + 1) * 10 && noexpand != 1
    }

    /** HASH_ADD_TO_BKT */
    method AddToBkt(ghost items: set<Item>, b: nat, x: Item)
      requires Holds(items) && x !in items && numItems == |items| + 1
      requires b == Home(x.hashv, numBuckets) && b < buckets.Length
      modifies this, buckets, x`hhPrev, x`hhNext, items`hhPrev, items`hhNext
      ensures Holds(items + {x}) && (buckets == old(buckets) || fresh(buckets))
      ensures numItems == old(numItems) && tail == old(tail)
      ensures !old(Full(b)) ==> expansions == old(expansions) && numBuckets == old(numBuckets)
      ensures old(Full(b)) ==>
                && numBuckets == 2 * old(numBuckets) && |chains| == numBuckets == buckets.Length && Balanced()
                && expansions == old(expansions) + [nonidealItems <= numItems / 2]
    {
      hide BucketsOk, Home;
      Prepend(buckets, chains, items, b, x, buckets[b].expandMult);
      chains := chains[b := [x] + chains[b]];
      if buckets[b].count >= (buckets[b].expandMult + 1) * BKT_CAPACITY_THRESH && noexpand != 1 {
        ExpandBuckets(items + {x});
      }
    }

    /** The bucket half of HASH_DELETE. */
    method Remove(ghost items: set<Item>, x: Item)
      requires Holds(items) && x in items && numItems > 0
      modifies this`chains, this`numItems, buckets, items`hhPrev, items`hhNext
      ensures Holds(items - {x}) && numItems == old(numItems) - 1
    {
      hide BucketsOk, Home;
      var b := Home(x.hashv, numBuckets);
      ghost var k := PlaceInChain(buckets, chains, items, x);
      DelInBkt(buckets, chains, items, b, x, k);
      chains := chains[b := Without(chains[b], k)];
      numItems := numItems - 1;
    }

    /** HASH_FIND_IN_BKT: walk one chain; lengths are compared before bytes. */
    method FindInBkt(ghost items: set<Item>, b: nat, key: string) returns (out: Item?)
      requires Holds(items) && b < buckets.Length
      requires forall x :: x in items ==> x.keylen == |x.key|
      ensures out != null ==> out in chains[b] && out.key == key
      ensures out == null ==> forall x :: x in chains[b] ==> x.key != key
    {
      assert BucketOk(buckets[b], chains[b]);
      out := buckets[b].head;
      ghost var k := 0;
      while out != null
        invariant k <= |chains[b]| && out == At(chains[b], k)
        invariant forall i :: 0 <= i < k ==> chains[b][i].key != key
        decreases |chains[b]| - k
      {
        assert out == chains[b][k] && out in items;
        if out.keylen == |key| {
          if out.key[..|key|] == key { break; }
        }
        out := out.hhNext;
        k := k + 1;
      }
    }
  }

  // ----- what the invariant says about a whole table -----

  ghost function CountSum(a: seq<Bucket>): nat { if a == [] then 0 else CountSum(a[..|a| - 1]) + a[|a| - 1].count }

  lemma {:induction false} SizeOf(s: seq<Item>)
    requires Distinct(s)
    ensures |SetOf(s)| == |s|
    decreases |s|
  {
    if s != [] {
      var t := s[..|s| - 1];
      SizeOf(t);
      assert SetOf(s) == SetOf(t) + {s[|s| - 1]};
    }
  }

  /** The items whose home is one of the first `n` buckets. */
  ghost function HomedBelow(items: set<Item>, numBuckets: nat, n: nat): set<Item>
    requires numBuckets > 0
    reads items`hashv
  {
    set x | x in items && Home(x.hashv, numBuckets) < n
  }

  /** The counts of the first `n` buckets add up to the number of items that live there. */
  lemma {:induction false} CountSumUpTo(a: array<Bucket>, chains: seq<seq<Item>>, items: set<Item>, n: nat)
    requires BucketsOk(a, chains, items) && n <= |chains| && chains != []
    ensures CountSum(a[..n]) == |HomedBelow(items, |chains|, n)|
    decreases n
  {
    if n == 0 {
      assert HomedBelow(items, |chains|, 0) == {};
    } else {
      CountOneMore(a, chains, items, n);
      hide HomedBelow, BucketOk;
      CountSumUpTo(a, chains, items, n - 1);
      CountNext(a[..n]);
      assert a[..n][..n - 1] == a[..n - 1];
    }
  }

  lemma CountOneMore(a: array<Bucket>, chains: seq<seq<Item>>, items: set<Item>, n: nat)
    requires BucketsOk(a, chains, items) && 0 < n <= |chains|
    ensures |HomedBelow(items, |chains|, n)| == |HomedBelow(items, |chains|, n - 1)| + a[n - 1].count
  {
    var here, before := HomedBelow(items, |chains|, n), HomedBelow(items, |chains|, n - 1);
    ChainFacts(a, chains, items, n - 1);
    hide *;
    SizeOf(chains[n - 1]);
    HomedNext(items, |chains|, n, SetOf(chains[n - 1]));
  }

  lemma ChainFacts(a: array<Bucket>, chains: seq<seq<Item>>, items: set<Item>, b: nat)
    requires BucketsOk(a, chains, items) && b < |chains|
    ensures b < a.Length && a[b].count == |chains[b]| && Distinct(chains[b])
    ensures forall x :: x in SetOf(chains[b]) <==> x in items && Home(x.hashv, |chains|) == b
  {
    assert BucketOk(a[b], chains[b]);
    ChainIsHome(chains, items, b);
  }

  lemma HomedNext(items: set<Item>, numBuckets: nat, n: nat, chain: set<Item>)
    requires 0 < n <= numBuckets && forall x :: x in chain <==> x in items && Home(x.hashv, numBuckets) == n - 1
    ensures HomedBelow(items, numBuckets, n) == HomedBelow(items, numBuckets, n - 1) + chain
    ensures HomedBelow(items, numBuckets, n - 1) !! chain
  {
    hide Home;
  }

  lemma CountNext(a: seq<Bucket>)
    requires a != []
    ensures CountSum(a) == CountSum(a[..|a| - 1]) + a[|a| - 1].count
  {
  }

  /** HASH_FSCK's count: the bucket counts add up to the number of items. */
  lemma CountsSum(t: Table, items: set<Item>)
    requires t.Holds(items)
    ensures CountSum(t.buckets[..]) == |items|
  {
    CountSumUpTo(t.buckets, t.chains, items, |t.chains|);
    assert t.buckets[..|t.chains|] == t.buckets[..];
    assert items == HomedBelow(items, |t.chains|, |t.chains|);
  }

  lemma {:induction false} NoExcess(chains: seq<seq<Item>>, ideal: nat)
    ensures Excess(chains, ideal) == 0 <==> forall b :: 0 <= b < |chains| ==> |chains[b]| <= ideal
    decreases |chains|
  {
    if chains != [] {
      NoExcess(chains[1..], ideal);
      assert forall b :: 0 < b < |chains| ==> chains[b] == chains[1..][b - 1];
      assert forall b :: 0 <= b < |chains| - 1 ==> chains[1..][b] == chains[b + 1];
    }
  }

  /** After an expansion the ideal length is the number of items per bucket, rounded up, no item is in
      excess exactly when no chain is longer than that, and only the longer buckets wait for more than
      the usual number of items before they expand. */
  lemma BalancedTable(t: Table, items: set<Item>)
    requires t.Holds(items) && t.Balanced()
    ensures t.idealChainMaxlen == (t.numItems + t.numBuckets - 1) / t.numBuckets
    ensures t.nonidealItems == 0 <==> forall b :: 0 <= b < t.numBuckets ==> t.buckets[b].count <= t.idealChainMaxlen
    ensures forall b :: 0 <= b < t.numBuckets && t.idealChainMaxlen > 0 ==>
              var m, c := t.buckets[b].expandMult, t.buckets[b].count;
              (m == 0 <==> c <= t.idealChainMaxlen) && (m > 0 ==> m == c / t.idealChainMaxlen)
  {
    CeilingIsQuotient(t.idealChainMaxlen, t.numItems, t.numBuckets);
    hide IsCeiling, Excess, Spread, Table.Paced;
    NoExcess(t.chains, t.idealChainMaxlen);
    forall b | 0 <= b < t.numBuckets ensures t.buckets[b].count == |t.chains[b]| {
      CountIsLength(t.buckets, t.chains, items, b);
    }
    forall b | 0 <= b < t.numBuckets && t.idealChainMaxlen > 0
      ensures var m, c := t.buckets[b].expandMult, t.buckets[b].count;
              (m == 0 <==> c <= t.idealChainMaxlen) && (m > 0 ==> m == c / t.idealChainMaxlen)
    {
      var c := t.buckets[b].count;
      if c > t.idealChainMaxlen {
        QuotientIs(c, t.idealChainMaxlen, 0);
      }
    }
  }

  /** The number of buckets is a power of two, and the home is the hash value modulo that number. */
  lemma HomeIsRemainder(hashv: nat, k: nat)
    ensures Home(hashv, Pow2(k)) == hashv % Pow2(k)
  {
    ShiftAndMask(hashv, k);
  }

  /** After doubling, an item of bucket b is in bucket b or in bucket b + n. */
  lemma HomeAfterDoubling(hashv: nat, k: nat)
    ensures Home(hashv, Pow2(k + 1)) == Home(hashv, Pow2(k))
         || Home(hashv, Pow2(k + 1)) == Home(hashv, Pow2(k)) + Pow2(k)
  {
    AndWiderMask(hashv, k);
  }

  /** IneffectiveStreak counts exactly the failures after the last success. */
  lemma {:induction false} StreakIsTrailing(history: seq<bool>, n: nat)
    requires n <= |history|
    ensures IneffectiveStreak(history) == n <==>
              && (forall i :: |history| - n <= i < |history| ==> !history[i])
              && (n < |history| ==> history[|history| - n - 1])
    decreases |history|
  {
    if history != [] {
      var front := history[..|history| - 1];
      if n > 0 {
        StreakIsTrailing(front, n - 1);
        assert n - 1 < |front| ==> front[|front| - (n - 1) - 1] == history[|history| - n - 1];
        assert forall i :: 0 <= i < |front| ==> front[i] == history[i];
      }
    }
  }
}
