/** The macros of uthash.h that work on the head pointer: HASH_FIND, HASH_ADD_KEYPTR and HASH_DELETE.
    `order` is the insertion-order list that starts at `head`. */
module UtHash {
  import opened Bits
  import opened Buckets
  import opened Sequences
  import opened StableSort
  import HashSort

  /** Each element carries its table and the length and hash value of its key. */
  ghost predicate Labelled(s: seq<Item>, t: Table?, fcn: string -> nat)
    reads s`tbl, s`keylen, s`hashv
  {
    forall x :: x in s ==> x.tbl == t && x.keylen == |x.key| && x.hashv == fcn(x.key)
  }

  class Hash {
    var head: Item?
    const fcn: string -> nat  // HASH_FCN, before the reduction to a bucket number

    ghost var order: seq<Item>
    ghost var table: Table?   // (head)->hh.tbl

    ghost predicate Valid()
      reads this, order`prev, order`next, order`tbl, order`keylen, order`hashv, order`hhPrev, order`hhNext
      reads table, if table == null then {} else {table.buckets}
    {
      && head == At(order, 0)
      && Distinct(order) && OrderLinked(order)
      && Labelled(order, table, fcn)
      && (head == null <==> table == null)
      && (table != null ==>
            && table.tail == order[|order| - 1]
            && table.numItems == |order|
            && table.Holds(SetOf(order)))
    }

    constructor (fcn: string -> nat)
      ensures Valid() && order == [] && this.fcn == fcn
    {
      this.fcn := fcn;
      head, order, table := null, [], null;
    }

    /** HASH_FIND */
    method Find(key: string) returns (out: Item?)
      requires Valid()
      ensures out != null ==> out in order && out.key == key
      ensures out == null ==> forall x :: x in order ==> x.key != key
    {
      out := null;
      if head != null {
        var t := head.tbl;
        var bkt := Home(fcn(key), t.numBuckets);
        out := t.FindInBkt(SetOf(order), bkt, key);
        InHomeChain(t.buckets, t.chains, SetOf(order), bkt);
      }
    }

    /** The list half of HASH_ADD_KEYPTR: append at the tail, or start a table. */
    method Append(x: Item)
      requires Valid() && x !in order
      modifies this, x`prev, x`next, x`tbl, order`next, (if table == null then {} else {table})`tail
      ensures order == old(order) + [x] && head == At(order, 0)
      ensures Distinct(order) && OrderLinked(order)
      ensures table != null && table.tail == x && head.tbl == table
      ensures table.Holds(SetOf(old(order))) && table.numItems == |old(order)|
      ensures if old(table) == null
              then fresh(table) && fresh(table.buckets) && table.expansions == []
                   && forall b :: 0 <= b < table.buckets.Length ==> !table.Full(b)
              else table == old(table)
    {
      hide Table.Holds;
      x.next := null;
      if head == null {
        assert SetOf(order) == {};
        head := x;
        head.prev := null;
        head.tbl := new Table(head);
        table := head.tbl;
      } else {
        LinkLast(head.tbl.tail, x, order);
        head.tbl.tail := x;
      }
      order := order + [x];
    }

    /** HASH_ADD_KEYPTR */
    method Add(x: Item)
      requires Valid() && x !in order
      modifies this, x`prev, x`next, x`tbl, x`keylen, x`hashv, x`hhPrev, x`hhNext
      modifies order`next, order`hhPrev, order`hhNext
      modifies table, if table == null then {} else {table.buckets}
      ensures Valid() && order == old(order) + [x]
      ensures if old(table) == null then fresh(table) && fresh(table.buckets) && table.expansions == []
              else table == old(table) && (table.buckets == old(table.buckets) || fresh(table.buckets))
      ensures old(table) != null ==>
                if old(table.Full(Home(fcn(x.key), table.numBuckets)))
                then table.expansions == old(table.expansions) + [table.nonidealItems <= table.numItems / 2]
                     && table.Balanced()
                else table.expansions == old(table.expansions)
      ensures old(table) != null && old(table.noexpand) == 1 ==>
                table.noexpand == 1 && table.numBuckets == old(table.numBuckets)
    {
      hide OrderLinked, Distinct, Table.Holds, Home, Table.Balanced;
      if table != null { BucketCount(table, SetOf(order)); }
      Append(x);
      BucketCount(table, SetOf(old(order)));
      AddToTable(x, old(order));
      BucketCount(table, SetOf(order));
    }

    /** The bucket half of HASH_ADD_KEYPTR. */
    method AddToTable(x: Item, ghost s: seq<Item>)
      requires order == s + [x] && head == order[0] && head.tbl == table && x !in s
      requires Distinct(s) && Distinct(order) && OrderLinked(order) && Labelled(s, table, fcn)
      requires table != null && table.tail == x && table.numItems == |s| && table.Holds(SetOf(s))
      modifies x`tbl, x`keylen, x`hashv, order`hhPrev, order`hhNext, table, table.buckets
      ensures Valid() && (table.buckets == old(table.buckets) || fresh(table.buckets))
      ensures if old(table.Full(Home(fcn(x.key), table.numBuckets)))
              then table.expansions == old(table.expansions) + [table.nonidealItems <= table.numItems / 2]
                   && table.Balanced()
              else table.expansions == old(table.expansions)
    {
      hide OrderLinked, Distinct, Table.Holds, Home, Table.Balanced, Labelled, Table.Paced, Table.Full;
      var t := head.tbl;
      assert SetOf(order) == SetOf(s) + {x};
      Label(x, s);
      BucketCount(t, SetOf(s));
      SizeOf(s);
      var bkt := Home(x.hashv, t.numBuckets);
      t.AddToBkt(SetOf(s), bkt, x);
    }

    /** The bookkeeping of HASH_ADD_KEYPTR before the bucket is touched. */
    method Label(x: Item, ghost s: seq<Item>)
      requires order == s + [x] && x !in s && head == order[0] && head.tbl == table && table != null
      requires Labelled(s, table, fcn)
      modifies x`tbl, x`keylen, x`hashv, table`numItems
      ensures Labelled(order, table, fcn) && x.hashv == fcn(x.key) && table.numItems == old(table.numItems) + 1
    {
      var t := head.tbl;
      t.numItems := t.numItems + 1;
      x.keylen := |x.key|;
      x.tbl := t;
      x.hashv := fcn(x.key);
      WithLabel(s, x, t, fcn);
    }

    /** HASH_DELETE */
    method Delete(x: Item, ghost k: nat)
      requires Valid() && k < |order| && order[k] == x
      modifies this, order`prev, order`next, order`hhPrev, order`hhNext
      modifies table, table.buckets
      ensures Valid() && order == Without(old(order), k)
      ensures table == null || (table == old(table) && table.buckets == old(table.buckets))
      ensures table != null ==> table.expansions == old(table.expansions)
    {
      hide OrderLinked, Distinct, Table.Holds, Home, Labelled;
      Neighbours(order, k);
      assert |order| > 1 || (x.prev == null && x.next == null);
      if x.prev == null && x.next == null {
        NothingLinked(fcn);
        head := null;
        table := null;
        order := [];
      } else {
        HasTable(order, table, fcn);
        WithoutSet(order, k);
        WithoutLabels(order, table, fcn, k);
        WithoutAt(order, k);
        UnlinkFromOrder(x, k);
        assert |order| == |old(order)| - 1 > 0 && SetOf(order) == SetOf(old(order)) - {x};
        hide SetOf, At, Without, Hash.Valid;
        x.tbl.Remove(SetOf(old(order)), x);
        ValidWithTable(this);
      }
    }

    /** HASH_SRT: only the insertion order changes, so every lookup finds what it found before. */
    method Sort(cmp: (Entry, Entry) -> int)
      requires Valid()
      modifies this`head, this`order, order`prev, order`next, (if table == null then {} else {table})`tail
      ensures Valid() && table == old(table)
      ensures multiset(order) == old(multiset(order))
      ensures Entries(order) == BottomUp(old(Entries(order)), 1, cmp)
    {
      hide OrderLinked, Distinct, Entries, BottomUp, Table.Holds, Labelled;
      if head != null {
        HeadHasTable(this);
        var t := head.tbl;
        var list, tail := Relink(cmp);
        t.tail := tail;
        head := list;
        SortedIsValid(this, old(order));
      } else {
        BottomUpOfNothing(cmp);
      }
    }

    /** The loops of HASH_SRT. */
    method Relink(cmp: (Entry, Entry) -> int) returns (list: Item?, tail: Item?)
      requires Valid() && head != null
      modifies this`order, order`prev, order`next
      ensures multiset(order) == multiset(old(order))
      ensures OrderLinked(order) && list == At(order, 0) && tail == At(order, |order| - 1)
      ensures Entries(order) == BottomUp(old(Entries(order)), 1, cmp)
    {
      hide *;
      OpenOrder(this);
      ghost var result := BottomUp(Entries(order), 1, cmp);
      NextOf(order);
      list, tail, order := HashSort.Sort(head, cmp, order);
      LastAt(order);
      assert Entries(order) == result;
    }

    /** The list half of HASH_DELETE. */
    method UnlinkFromOrder(x: Item, ghost k: nat)
      requires Valid() && k < |order| && order[k] == x && |order| > 1
      modifies this`head, this`order, order`prev, order`next, table`tail
      ensures order == Without(old(order), k) && head == At(order, 0)
      ensures Distinct(order) && OrderLinked(order) && table.tail == order[|order| - 1]
      ensures table.Holds(SetOf(old(order)))
    {
      hide OrderLinked, Labelled, Table.Holds;
      Neighbours(order, k);
      assert head.tbl == table by { HasTable(order, table, fcn); }
      var t := head.tbl;
      if x == t.tail {
        t.tail := x.prev;
      }
      if x.prev == null {
        head := x.next;
      }
      Detach(x, order, k);
      order := Without(order, k);
    }
  }

  lemma WithoutLabels(s: seq<Item>, t: Table?, fcn: string -> nat, k: nat)
    requires Labelled(s, t, fcn) && k < |s|
    ensures Labelled(Without(s, k), t, fcn)
  {
    WithoutKeepsOthers(s, k);
  }

  lemma WithoutKeepsOthers(s: seq<Item>, k: nat)
    requires k < |s|
    ensures forall x :: x in Without(s, k) ==> x in s
  {
  }

  lemma NothingLinked(fcn: string -> nat)
    ensures OrderLinked([]) && Distinct<Item>([]) && Labelled([], null, fcn)
  {
  }

  lemma WithLabel(s: seq<Item>, x: Item, t: Table, fcn: string -> nat)
    requires Labelled(s, t, fcn) && x.tbl == t && x.keylen == |x.key| && x.hashv == fcn(x.key)
    ensures Labelled(s + [x], t, fcn)
  {
  }

  lemma HeadHasTable(h: Hash)
    requires h.Valid() && h.head != null
    ensures h.head.tbl == h.table
  {
  }

  lemma OpenOrder(h: Hash)
    requires h.Valid() && h.head != null
    ensures h.order != [] && h.head == h.order[0] && Distinct(h.order) && OrderLinked(h.order)
  {
    hide Distinct, OrderLinked, Labelled, Table.Holds;
  }

  lemma LastAt(s: seq<Item>)
    ensures HashSort.Last(s) == At(s, |s| - 1)
  {
  }

  lemma NextOf(s: seq<Item>)
    requires OrderLinked(s)
    ensures HashSort.NextLinked(s)
  {
  }

  lemma BottomUpOfNothing<T>(cmp: (T, T) -> int)
    ensures BottomUp([], 1, cmp) == []
  {
  }

  lemma SortedIsValid(h: Hash, before: seq<Item>)
    requires multiset(h.order) == multiset(before) && before != []
    requires Distinct(before) && Labelled(before, h.table, h.fcn)
    requires OrderLinked(h.order) && h.head == At(h.order, 0)
    requires h.table != null && h.table.tail == At(h.order, |h.order| - 1)
    requires h.table.numItems == |before| && h.table.Holds(SetOf(before))
    ensures h.Valid()
  {
    hide Table.Holds;
    HashSort.SortedAgain(before, h.order);
    HashSort.SameElements(before, h.order);
    assert SetOf(h.order) == SetOf(before);
  }

  lemma ValidWithTable(h: Hash)
    requires h.table != null && h.order != [] && h.head == At(h.order, 0)
    requires Distinct(h.order) && OrderLinked(h.order) && Labelled(h.order, h.table, h.fcn)
    requires h.table.tail == h.order[|h.order| - 1] && h.table.numItems == |h.order|
    requires h.table.Holds(SetOf(h.order))
    ensures h.Valid()
  {
    hide Table.Holds;
  }

  lemma BucketCount(t: Table, items: set<Item>)
    requires t.Holds(items)
    ensures t.numBuckets == t.buckets.Length > 0
    ensures t.numBuckets == Pow2(INITIAL_NUM_BUCKETS_LOG2 + |t.expansions|)
    ensures t.noexpand == if IneffectiveStreak(t.expansions) == 2 then 1 else 0
  {
  }

  lemma Neighbours(s: seq<Item>, k: nat)
    requires OrderLinked(s) && k < |s|
    ensures s[k].prev == At(s, k - 1) && s[k].next == At(s, k + 1)
  {
  }

  lemma HasTable(s: seq<Item>, t: Table?, fcn: string -> nat)
    requires Labelled(s, t, fcn)
    ensures forall x :: x in s ==> x.tbl == t
  {
  }

  method Detach(x: Item, ghost s: seq<Item>, ghost k: nat)
    requires OrderLinked(s) && Distinct(s) && k < |s| && s[k] == x
    modifies s`prev, s`next
    ensures OrderLinked(Without(s, k)) && Distinct(Without(s, k))
  {
    WithoutAt(s, k);
    hide Without, Distinct;
    ghost var rest := Without(s, k);
    if x.prev != null {
      x.prev.next := x.next;
    }
    if x.next != null {
      x.next.prev := x.prev;
    }
    forall i | 0 <= i < |rest| ensures rest[i].prev == At(rest, i - 1) && rest[i].next == At(rest, i + 1) {
      var j := if i < k then i else i + 1;
      Apart(s, j, k - 1);
      Apart(s, j, k + 1);
    }
    WithoutDistinct(s, k);
  }

  lemma WithoutSet(s: seq<Item>, k: nat)
    requires Distinct(s) && k < |s|
    ensures SetOf(Without(s, k)) == SetOf(s) - {s[k]}
  {
    forall x | x in SetOf(s) - {s[k]} ensures x in Without(s, k) {
      var i :| 0 <= i < |s| && s[i] == x;
      assert Without(s, k)[if i < k then i else i - 1] == x;
    }
  }

  method LinkLast(last: Item, x: Item, ghost s: seq<Item>)
    requires OrderLinked(s) && Distinct(s) && x !in s && s != [] && s[|s| - 1] == last && x.next == null
    modifies last`next, x`prev
    ensures OrderLinked(s + [x]) && Distinct(s + [x])
  {
    last.next := x;
    x.prev := last;
  }

  lemma InHomeChain(a: array<Bucket>, chains: seq<seq<Item>>, items: set<Item>, b: nat)
    requires BucketsOk(a, chains, items) && b < |chains|
    ensures forall x :: x in items && Home(x.hashv, |chains|) == b ==> x in chains[b]
    ensures forall x :: x in chains[b] ==> x in items
  {
  }
}
