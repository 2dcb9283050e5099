/** The LMDB and LevelDB connections: Set, Get, Delete and Rename over primitives that may fail, and
    the callbacks from which a client keeps a mirror of the store. */
module LocalStores {
  import opened Text

  type Contents = map<string, string>

  datatype Kind = LMDB | LEVELDB
  datatype NKey = NKey(key: string, ttl: int)
  datatype NDbKValue = NDbKValue(key: NKey, value: string)
  datatype Error = InvalidInput | NotConnected | GetFailed | DelFailed | SetFailed

  function KeyStrings(keys: seq<NKey>): (r: set<string>)
    ensures forall k :: k in r <==> exists i :: 0 <= i < |keys| && keys[i].key == k
  {
    set i | 0 <= i < |keys| :: keys[i].key
  }

  // ----- what an operation does to the store, and what its callback does to the mirror -----

  datatype Outcome =
    | Nothing                                 // an error before anything changed, or a Get
    | Stored(key: string, value: string)      // Set
    | Removed(keys: set<string>)              // Delete
    | Moved(key: string, newKey: string)      // Rename
    | Dropped(key: string)                    // Rename whose final Set failed: the source key is gone

  /** Outcomes that the primitives allow: LMDB deletes only keys it has, LevelDB any key. */
  predicate Possible(kind: Kind, store: Contents, o: Outcome) {
    match o
    case Nothing => true
    case Stored(_, _) => true
    case Removed(keys) => kind == LMDB ==> keys <= store.Keys
    case Moved(key, _) => key in store
    case Dropped(key) => key in store
  }

  function StoreAfter(store: Contents, o: Outcome): Contents {
    match o
    case Nothing => store
    case Stored(key, value) => store[key := value]
    case Removed(keys) => store - keys
    case Moved(key, newKey) => Move(store, key, newKey)
    case Dropped(key) => store - {key}
  }

  function Move(m: Contents, key: string, newKey: string): Contents {
    if key in m then (m - {key})[newKey := m[key]] else m
  }

  /** The value has gone from one key to the other, and nothing else has changed. */
  ghost predicate Relocated(before: Contents, after: Contents, key: string, newKey: string) {
    && key in before && newKey in after && after[newKey] == before[key]
    && (key != newKey ==> key !in after)
    && (forall k :: k != key && k != newKey ==> (k in after <==> k in before))
    && (forall k :: k != key && k != newKey && k in before ==> after[k] == before[k])
  }

  lemma MoveRelocates(m: Contents, key: string, newKey: string)
    ensures key !in m ==> Move(m, key, newKey) == m
    ensures forall m' :: Relocated(m, m', key, newKey) <==> key in m && m' == Move(m, key, newKey)
  {
    forall m' | Relocated(m, m', key, newKey) ensures m' == Move(m, key, newKey) {
      assert m'.Keys == Move(m, key, newKey).Keys;
    }
  }

  /** Those of the keys that can be deleted. */
  function Deletable(kind: Kind, store: Contents, keys: set<string>): set<string> {
    if kind == LMDB then keys * store.Keys else keys
  }

  /** A failed operation is not announced. */
  function MirrorAfter(mirror: Contents, o: Outcome): Contents {
    match o
    case Nothing => mirror
    case Stored(key, value) => mirror[key := value]
    case Removed(keys) => mirror - keys
    case Moved(key, newKey) => Move(mirror, key, newKey)
    case Dropped(_) => mirror
  }

  /** The mirror knows everything in the store. */
  predicate Covers(mirror: Contents, store: Contents) {
    store.Keys <= mirror.Keys && forall k :: k in store ==> mirror[k] == store[k]
  }

  // ----- whole runs -----

  function StoreRun(store: Contents, os: seq<Outcome>): Contents
    decreases |os|
  {
    if os == [] then store else StoreAfter(StoreRun(store, os[..|os| - 1]), os[|os| - 1])
  }

  function MirrorRun(mirror: Contents, os: seq<Outcome>): Contents
    decreases |os|
  {
    if os == [] then mirror else MirrorAfter(MirrorRun(mirror, os[..|os| - 1]), os[|os| - 1])
  }

  predicate PossibleRun(kind: Kind, store: Contents, os: seq<Outcome>) {
    forall i :: 0 <= i < |os| ==> Possible(kind, StoreRun(store, os[..i]), os[i])
  }

  predicate Restores(o: Outcome, k: string) {
    match o
    case Stored(key, _) => key == k
    case Removed(keys) => k in keys
    case Moved(_, newKey) => newKey == k
    case _ => false
  }

  /** The source key of a rename whose final Set failed, not written, deleted or renamed to since. */
  ghost predicate Lost(os: seq<Outcome>, k: string) {
    exists i :: 0 <= i < |os| && os[i] == Dropped(k) && NotRestored(os[i + 1..], k)
  }

  predicate NotRestored(os: seq<Outcome>, k: string) {
    forall i :: 0 <= i < |os| ==> !Restores(os[i], k)
  }

  lemma LostNext(os: seq<Outcome>, o: Outcome, k: string)
    ensures Lost(os + [o], k) <==> o == Dropped(k) || (Lost(os, k) && !Restores(o, k))
  {
    hide Lost, Restores;
    if o == Dropped(k) {
      LostNow(os, o, k);
    } else if Lost(os, k) && !Restores(o, k) {
      StillLost(os, o, k);
    } else if Lost(os + [o], k) {
      WasLost(os, o, k);
    }
  }

  lemma LostNow(os: seq<Outcome>, o: Outcome, k: string)
    requires o == Dropped(k)
    ensures Lost(os + [o], k)
  {
    var all := os + [o];
    assert all[|os|] == Dropped(k) && all[|os| + 1..] == [];
  }

  lemma StillLost(os: seq<Outcome>, o: Outcome, k: string)
    requires Lost(os, k) && !Restores(o, k)
    ensures Lost(os + [o], k)
  {
    var all := os + [o];
    hide Restores;
    var i :| 0 <= i < |os| && os[i] == Dropped(k) && NotRestored(os[i + 1..], k);
    assert all[i + 1..] == os[i + 1..] + [o];
    assert all[i] == Dropped(k) && NotRestored(all[i + 1..], k);
  }

  lemma WasLost(os: seq<Outcome>, o: Outcome, k: string)
    requires Lost(os + [o], k) && o != Dropped(k)
    ensures Lost(os, k) && !Restores(o, k)
  {
    var all := os + [o];
    hide Restores;
    var i :| 0 <= i < |all| && all[i] == Dropped(k) && NotRestored(all[i + 1..], k);
    var early, late := os[i + 1..], all[i + 1..];
    assert late == early + [o] && late[|early|] == o;
    assert forall j :: 0 <= j < |early| ==> early[j] == late[j];
    assert os[i] == Dropped(k) && NotRestored(early, k);
  }

  lemma StoreNext(store: Contents, os: seq<Outcome>, o: Outcome)
    ensures StoreRun(store, os + [o]) == StoreAfter(StoreRun(store, os), o)
  {
    assert (os + [o])[..|os|] == os;
  }

  lemma MirrorNext(mirror: Contents, os: seq<Outcome>, o: Outcome)
    ensures MirrorRun(mirror, os + [o]) == MirrorAfter(MirrorRun(mirror, os), o)
  {
    assert (os + [o])[..|os|] == os;
  }

  lemma PossibleNext(kind: Kind, start: Contents, os: seq<Outcome>, o: Outcome)
    ensures PossibleRun(kind, start, os + [o]) <==>
            PossibleRun(kind, start, os) && Possible(kind, StoreRun(start, os), o)
  {
    var all := os + [o];
    hide Possible, StoreRun;
    assert all[..|os|] == os && all[|os|] == o;
    assert forall i :: 0 <= i < |os| ==> all[..i] == os[..i] && all[i] == os[i];
  }

  lemma NothingRun(kind: Kind, start: Contents)
    ensures PossibleRun(kind, start, []) && StoreRun(start, []) == start == MirrorRun(start, [])
    ensures forall k :: !Lost([], k)
  {
  }

  /** After any run the mirror holds the store, and besides it exactly the lost keys. */
  lemma {:induction false} MirrorTracksStore(kind: Kind, start: Contents, os: seq<Outcome>)
    requires PossibleRun(kind, start, os)
    ensures Covers(MirrorRun(start, os), StoreRun(start, os))
    ensures forall k :: Lost(os, k) <==> k in MirrorRun(start, os) && k !in StoreRun(start, os)
    decreases |os|
  {
    if os == [] {
      NothingRun(kind, start);
    } else {
      hide *;
      var before, o := os[..|os| - 1], os[|os| - 1];
      assert os == before + [o];
      PossibleNext(kind, start, before, o);
      StoreNext(start, before, o);
      MirrorNext(start, before, o);
      MirrorTracksStore(kind, start, before);
      forall k
        ensures Lost(os, k) <==> k in MirrorRun(start, os) && k !in StoreRun(start, os)
      {
        LostNext(before, o, k);
        MirrorStep(kind, MirrorRun(start, before), StoreRun(start, before), o, k);
      }
      MirrorStep(kind, MirrorRun(start, before), StoreRun(start, before), o, "");
    }
  }

  lemma MirrorStep(kind: Kind, mirror: Contents, store: Contents, o: Outcome, k: string)
    requires Covers(mirror, store) && Possible(kind, store, o)
    ensures var m, s := MirrorAfter(mirror, o), StoreAfter(store, o);
            && Covers(m, s)
            && (k in m && k !in s <==> o == Dropped(k) || (k in mirror && k !in store && !Restores(o, k)))
  {
  }

  /** The mirror equals the store exactly when no key is lost; in particular as long as no rename
      fails in its final Set. */
  lemma MirrorIsStore(kind: Kind, start: Contents, os: seq<Outcome>)
    requires PossibleRun(kind, start, os)
    ensures MirrorRun(start, os) == StoreRun(start, os) <==> forall k :: !Lost(os, k)
    ensures (forall i :: 0 <= i < |os| ==> !os[i].Dropped?) ==> MirrorRun(start, os) == StoreRun(start, os)
  {
    MirrorTracksStore(kind, start, os);
    var m, s := MirrorRun(start, os), StoreRun(start, os);
    if forall k :: !Lost(os, k) {
      assert m.Keys == s.Keys;
    }
  }

  /** In LMDB a lost key stays lost until it is written again: deleting it fails unannounced. */
  lemma LmdbNeverForgets(start: Contents, os: seq<Outcome>, o: Outcome, k: string)
    requires PossibleRun(LMDB, start, os + [o]) && Lost(os, k)
    ensures Lost(os + [o], k) <==> !(o.Stored? && o.key == k) && !(o.Moved? && o.newKey == k)
  {
    var all := os + [o];
    assert all[..|os|] == os && all[|os|] == o;
    assert forall i :: 0 <= i < |os| ==> all[..i] == os[..i] && all[i] == os[i];
    MirrorTracksStore(LMDB, start, os);
    LostNext(os, o, k);
  }

  // ----- the connection -----

  /** An out-parameter. */
  class Cell<T> {
    var value: T

    constructor (value: T)
      ensures this.value == value
    {
      this.value := value;
    }
  }

  /** A client that keeps a map from the callbacks alone. */
  class Client {
    var mirror: Contents
    var loaded: seq<NDbKValue>

    constructor ()
      ensures mirror == map[] && loaded == []
    {
      mirror, loaded := map[], [];
    }

    method OnKeyAdded(key: NDbKValue)
      modifies `mirror
      ensures mirror == MirrorAfter(old(mirror), Stored(key.key.key, key.value))
    {
      mirror := mirror[key.key.key := key.value];
    }

    method OnKeysRemoved(keys: seq<NKey>)
      modifies `mirror
      ensures mirror == MirrorAfter(old(mirror), Removed(KeyStrings(keys)))
    {
      var i := 0;
      while i < |keys|
        invariant i <= |keys| && mirror == old(mirror) - KeyStrings(keys[..i])
      {
        mirror := mirror - {keys[i].key};
        assert KeyStrings(keys[..i + 1]) == KeyStrings(keys[..i]) + {keys[i].key};
        i := i + 1;
      }
      assert keys[..i] == keys;
    }

    method OnKeyLoaded(key: NDbKValue)
      modifies `loaded
      ensures loaded == old(loaded) + [key]
    {
      loaded := loaded + [key];
    }

    method OnKeyRenamed(key: NKey, newKey: string)
      modifies `mirror
      ensures mirror == MirrorAfter(old(mirror), Moved(key.key, newKey))
      ensures key.key in old(mirror) ==> Relocated(old(mirror), mirror, key.key, newKey)
    {
      if key.key in mirror {
        var value := mirror[key.key];
        mirror := mirror - {key.key};
        mirror := mirror[newKey := value];
      }
    }
  }

  class Connection {
    const kind: Kind
    const client: Client?
    const faults: nat -> bool   // whether the n-th call of a primitive fails

    var connected: bool
    var calls: nat
    var store: Contents
    var txn: Option<Contents>   // what an open LMDB transaction would commit

    constructor (kind: Kind, client: Client?, faults: nat -> bool, store: Contents)
      ensures this.kind == kind && this.client == client && this.faults == faults && this.store == store
      ensures connected && calls == 0 && txn.None?
    {
      this.kind, this.client, this.faults := kind, client, faults;
      this.connected, this.calls, this.store, this.txn := true, 0, store, None;
    }

    /** No primitive has failed since call number `from`. */
    ghost predicate Smooth(from: nat)
      reads `calls
    {
      forall n :: from <= n < calls ==> !faults(n)
    }

    method Primitive() returns (ok: bool)
      modifies `calls
      ensures calls > old(calls) && ok == Smooth(old(calls))
    {
      ok := !faults(calls);
      calls := calls + 1;
    }

    // ----- LMDB transactions -----

    method TxnBegin() returns (ok: bool)
      requires txn.None?
      modifies `calls, `txn
      ensures txn == if ok then Some(store) else None
      ensures calls > old(calls) && ok == Smooth(old(calls))
    {
      ok := Primitive();
      if ok { txn := Some(store); }
    }

    method TxnPut(key: string, value: string) returns (ok: bool)
      requires txn.Some?
      modifies `calls, `txn
      ensures txn == if ok then Some(old(txn).value[key := value]) else old(txn)
      ensures calls > old(calls) && ok == Smooth(old(calls))
    {
      ok := Primitive();
      if ok { txn := Some(txn.value[key := value]); }
    }

    /** MDB_NOTFOUND is an error. */
    method TxnDel(key: string) returns (ok: bool)
      requires txn.Some?
      modifies `calls, `txn
      ensures txn == if ok then Some(old(txn).value - {key}) else old(txn)
      ensures calls > old(calls) && ok == (Smooth(old(calls)) && key in old(txn).value)
    {
      ok := Primitive();
      ok := ok && key in txn.value;
      if ok { txn := Some(txn.value - {key}); }
    }

    method TxnGet(key: string) returns (ok: bool, value: string)
      requires txn.Some?
      modifies `calls
      ensures calls > old(calls) && ok == (Smooth(old(calls)) && key in txn.value)
      ensures ok ==> value == txn.value[key]
    {
      ok := Primitive();
      ok := ok && key in txn.value;
      value := if ok then txn.value[key] else "";
    }

    method TxnCommit() returns (ok: bool)
      requires txn.Some?
      modifies `calls, `txn, `store
      ensures txn.None? && store == if ok then old(txn).value else old(store)
      ensures calls > old(calls) && ok == Smooth(old(calls))
    {
      ok := Primitive();
      if ok { store := txn.value; }
      txn := None;
    }

    method TxnAbort()
      modifies `txn
      ensures txn.None?
    {
      txn := None;
    }

    // ----- SetInner, GetInner, DelInner -----

    method SetInner(key: string, value: string) returns (err: Option<Error>)
      requires txn.None?
      modifies `calls, `txn, `store
      ensures txn.None? && calls >= old(calls)
      ensures err == if !connected then Some(NotConnected) else if Smooth(old(calls)) then None else Some(SetFailed)
      ensures store == if err.None? then old(store)[key := value] else old(store)
    {
      if !connected { return Some(NotConnected); }
      var ok;
      if kind == LMDB {
        ok := TxnBegin();
        if ok {
          ok := TxnPut(key, value);
          if ok {
            ok := TxnCommit();
          } else {
            TxnAbort();
          }
        }
      } else {
        ok := Primitive();
        if ok { store := store[key := value]; }
      }
      err := if ok then None else Some(SetFailed);
    }

    method GetInner(key: string) returns (err: Option<Error>, value: string)
      requires txn.None?
      modifies `calls, `txn
      ensures txn.None? && calls >= old(calls)
      ensures err == if !connected then Some(NotConnected)
                     else if Smooth(old(calls)) && key in store then None else Some(GetFailed)
      ensures err.None? ==> value == store[key]
    {
      value := "";
      if !connected { return Some(NotConnected), ""; }
      var ok;
      if kind == LMDB {
        ok := TxnBegin();
        if ok {
          ok, value := TxnGet(key);
        }
        TxnAbort();
      } else {
        ok := Primitive();
        ok := ok && key in store;
        value := if ok then store[key] else "";
      }
      err := if ok then None else Some(GetFailed);
    }

    method DelInner(key: string) returns (err: Option<Error>)
      requires txn.None?
      modifies `calls, `txn, `store
      ensures txn.None? && calls >= old(calls)
      ensures err == if !connected then Some(NotConnected)
                     else if Smooth(old(calls)) && (kind == LEVELDB || key in old(store)) then None
                     else Some(DelFailed)
      ensures store == if err.None? then old(store) - {key} else old(store)
    {
      if !connected { return Some(NotConnected); }
      var ok;
      if kind == LMDB {
        ok := TxnBegin();
        if ok {
          ok := TxnDel(key);
          if ok {
            ok := TxnCommit();
          } else {
            TxnAbort();
          }
        }
      } else {
        ok := Primitive();
        if ok { store := store - {key}; }
      }
      err := if ok then None else Some(DelFailed);
    }

    // ----- SetImpl, GetImpl, DeleteImpl, RenameImpl -----

    method SetImpl(key: NDbKValue, added: Cell<NDbKValue>) returns (err: Option<Error>)
      requires txn.None?
      modifies `calls, `txn, `store, added
      ensures txn.None? && calls >= old(calls)
      ensures store == StoreAfter(old(store), if err.None? then Stored(key.key.key, key.value) else Nothing)
      ensures added.value == if err.None? then key else old(added.value)
      ensures err.None? <==> connected && Smooth(old(calls))
    {
      err := SetInner(key.key.key, key.value);
      if err.Some? { return; }
      added.value := key;
    }

    method GetImpl(key: NKey, loaded: Cell<NDbKValue>) returns (err: Option<Error>)
      requires txn.None?
      modifies `calls, `txn, loaded
      ensures txn.None? && calls >= old(calls)
      ensures err.None? <==> connected && Smooth(old(calls)) && key.key in store
      ensures err.None? ==> loaded.value == NDbKValue(key, store[key.key])
      ensures err.Some? ==> loaded.value == old(loaded.value)
    {
      var value;
      err, value := GetInner(key.key);
      if err.Some? { return; }
      loaded.value := NDbKValue(key, value);
    }

    /** Never fails: keys that cannot be deleted are left out of the list, all of them while the
        connection is closed. Every key is tried, so no more keys are left out than primitives failed. */
    method DeleteImpl(keys: seq<NKey>, deleted: Cell<seq<NKey>>) returns (ghost now: seq<NKey>)
      requires txn.None?
      modifies `calls, `txn, `store, deleted
      ensures txn.None? && calls >= old(calls) && deleted.value == old(deleted.value) + now
      ensures store == old(store) - KeyStrings(now)
      ensures connected ==>
                Tried(kind, old(store), KeyStrings(keys), KeyStrings(now), Failures(faults, old(calls), calls))
      ensures !connected ==> now == []
    {
      hide *;
      now := [];
      var i := 0;
      NothingTried(kind, store, keys);
      assert deleted.value == old(deleted.value) + now;
      while i < |keys|
        invariant i <= |keys| && txn.None? && calls >= old(calls)
        invariant deleted.value == old(deleted.value) + now && store == old(store) - KeyStrings(now)
        invariant connected ==>
                    Tried(kind, old(store), KeyStrings(keys[..i]), KeyStrings(now), Failures(faults, old(calls), calls))
        invariant !connected ==> now == []
      {
        KeyStringsNext(keys, i);
        now := DeleteOne(keys[i], deleted, old(store), KeyStrings(keys[..i]), now, old(calls));
        i := i + 1;
      }
      assert keys[..i] == keys;
    }

    /** The body of that loop. */
    method DeleteOne(key: NKey, deleted: Cell<seq<NKey>>, ghost start: Contents, ghost keys: set<string>,
                     ghost now: seq<NKey>, ghost first: nat)
      returns (ghost now': seq<NKey>)
      requires txn.None? && first <= calls && store == start - KeyStrings(now)
      requires connected ==> Tried(kind, start, keys, KeyStrings(now), Failures(faults, first, calls))
      modifies `calls, `txn, `store, deleted
      ensures txn.None? && first <= calls && store == start - KeyStrings(now')
      ensures connected ==> Tried(kind, start, keys + {key.key}, KeyStrings(now'), Failures(faults, first, calls))
      ensures !connected ==> now' == now
      ensures (now' == now && deleted.value == old(deleted.value))
              || (now' == now + [key] && deleted.value == old(deleted.value) + [key])
    {
      hide Tried, Failures, Deletable, KeyStrings;
      var err := DelInner(key.key);
      FailuresMore(faults, first, old(calls), calls);
      if connected {
        OneMoreTried(kind, start, keys, KeyStrings(now), key.key,
                     Failures(faults, first, old(calls)), Failures(faults, old(calls), calls), err.None?);
      }
      now' := now;
      if err.Some? { return; }
      KeyStringsMore(now, key);
      OneLess(start, KeyStrings(now), key.key);
      now' := now + [key];
      deleted.value := deleted.value + [key];
    }

    method RenameImpl(key: NKey, newKey: string) returns (err: Option<Error>)
      requires txn.None?
      modifies `calls, `txn, `store
      ensures txn.None? && calls >= old(calls)
      ensures connected ==> store == StoreAfter(old(store), Renamed(key.key, newKey, err))
      ensures err == Some(SetFailed) ==> key.key in old(store)
      ensures err.None? <==> connected && Smooth(old(calls)) && key.key in old(store)
      ensures err.None? ==> Relocated(old(store), store, key.key, newKey)
      ensures err.None? ==> newKey in store && store[newKey] == old(store)[key.key]
      ensures err.None? && key.key != newKey ==> key.key !in store
    {
      var value;
      err, value := GetInner(key.key);
      if err.Some? { return; }
      err := DelInner(key.key);
      if err.Some? { return; }
      err := SetInner(newKey, value);
    }

    // ----- Set, Get, Delete, Rename -----

    ghost predicate Told(o: Outcome, mirror0: Contents)
      reads (if client == null then {} else {client})`mirror
    {
      client != null ==> client.mirror == MirrorAfter(mirror0, o)
    }

    ghost function Mirror(): Contents
      reads (if client == null then {} else {client})`mirror
    {
      if client == null then map[] else client.mirror
    }

    method Set(key: NDbKValue, added: Cell?<NDbKValue>) returns (err: Option<Error>)
      requires txn.None?
      modifies `calls, `txn, `store, added, (if client == null then {} else {client})`mirror
      ensures txn.None?
      ensures added == null ==> err == Some(InvalidInput)
      ensures added != null && !connected ==> err == Some(NotConnected)
      ensures calls >= old(calls) && (added != null && connected ==> (err.None? <==> Smooth(old(calls))))
      ensures var o := if err.None? then Stored(key.key.key, key.value) else Nothing;
              Possible(kind, old(store), o) && store == StoreAfter(old(store), o) && Told(o, old(Mirror()))
      ensures added != null ==> added.value == if err.None? then key else old(added.value)
    {
      if added == null { return Some(InvalidInput); }
      if !connected { return Some(NotConnected); }
      err := SetImpl(key, added);
      if err.Some? { return; }
      if client != null {
        client.OnKeyAdded(added.value);
      }
    }

    /** What is loaded and reported is what a mirror of the store holds. */
    method Get(key: NKey, loaded: Cell?<NDbKValue>) returns (err: Option<Error>)
      requires txn.None?
      modifies `calls, `txn, loaded, (if client == null then {} else {client})`loaded
      ensures txn.None?
      ensures loaded == null ==> err == Some(InvalidInput)
      ensures loaded != null && !connected ==> err == Some(NotConnected)
      ensures calls >= old(calls)
      ensures loaded != null && connected ==> (err.None? <==> Smooth(old(calls)) && key.key in store)
      ensures loaded != null && err.None? ==> loaded.value == NDbKValue(key, store[key.key])
      ensures loaded != null && err.Some? ==> loaded.value == old(loaded.value)
      ensures client != null ==>
                var value := if key.key in store then store[key.key] else "";
                client.loaded == old(client.loaded) + if err.Some? then [] else [NDbKValue(key, value)]
    {
      if loaded == null { return Some(InvalidInput); }
      if !connected { return Some(NotConnected); }
      err := GetImpl(key, loaded);
      if err.Some? { return; }
      if client != null {
        client.OnKeyLoaded(loaded.value);
      }
    }

    /** The callback gets the whole vector, also what the caller had in it before. */
    method Delete(keys: seq<NKey>, deleted: Cell?<seq<NKey>>) returns (err: Option<Error>, ghost o: Outcome)
      requires txn.None?
      modifies `calls, `txn, `store, deleted, (if client == null then {} else {client})`mirror
      ensures txn.None?
      ensures err == if deleted == null then Some(InvalidInput) else if !connected then Some(NotConnected) else None
      ensures err.Some? ==> o == Nothing && (deleted != null ==> deleted.value == old(deleted.value))
      ensures Possible(kind, old(store), o) && store == StoreAfter(old(store), o)
      ensures calls >= old(calls)
      ensures err.None? ==>
                o.Removed? && Tried(kind, old(store), KeyStrings(keys), o.keys, Failures(faults, old(calls), calls))
      ensures err.None? ==> KeyStrings(deleted.value) == KeyStrings(old(deleted.value)) + o.keys
      ensures err.None? && Smooth(old(calls)) ==> o == Removed(Deletable(kind, old(store), KeyStrings(keys)))
      ensures err.Some? ==> Told(Nothing, old(Mirror()))
      ensures err.None? ==> Told(Removed(KeyStrings(deleted.value)), old(Mirror()))
    {
      hide Tried, Failures, Deletable, KeyStrings;
      o := Nothing;
      if deleted == null { return Some(InvalidInput), Nothing; }
      if !connected { return Some(NotConnected), Nothing; }
      ghost var now := DeleteImpl(keys, deleted);
      FailuresMore(faults, old(calls), old(calls), calls);
      if Smooth(old(calls)) { AllTried(kind, old(store), KeyStrings(keys), KeyStrings(now)); }
      TriedIsPossible(kind, old(store), KeyStrings(keys), KeyStrings(now), Failures(faults, old(calls), calls));
      KeyStringsConcat(old(deleted.value), now);
      o := Removed(KeyStrings(now));
      if client != null {
        client.OnKeysRemoved(deleted.value);
      }
      err := None;
    }

    method Rename(key: NKey, newKey: string) returns (err: Option<Error>)
      requires txn.None?
      modifies `calls, `txn, `store, (if client == null then {} else {client})`mirror
      ensures txn.None?
      ensures !connected ==> err == Some(NotConnected)
      ensures var o := Renamed(key.key, newKey, err);
              Possible(kind, old(store), o) && store == StoreAfter(old(store), o) && Told(o, old(Mirror()))
      ensures calls >= old(calls)
      ensures err.None? <==> connected && Smooth(old(calls)) && key.key in old(store)
      ensures err.None? ==> Relocated(old(store), store, key.key, newKey)
      ensures err.None? ==> newKey in store && store[newKey] == old(store)[key.key]
      ensures err.None? && key.key != newKey ==> key.key !in store
    {
      if !connected { return Some(NotConnected); }
      err := RenameImpl(key, newKey);
      if err.Some? { return; }
      if client != null {
        client.OnKeyRenamed(key, newKey);
      }
    }
  }

  // ----- a run of calls -----

  datatype Call =
    | DoSet(key: NDbKValue)
    | DoGet(nkey: NKey)
    | DoDelete(keys: seq<NKey>)
    | DoRename(from: NKey, newKey: string)

  /** What a call does on an open connection when no primitive fails. */
  function Intended(kind: Kind, store: Contents, call: Call): Outcome {
    match call
    case DoSet(key) => Stored(key.key.key, key.value)
    case DoGet(_) => Nothing
    case DoDelete(keys) => Removed(Deletable(kind, store, KeyStrings(keys)))
    case DoRename(key, newKey) => if key.key in store then Moved(key.key, newKey) else Nothing
  }

  /** What a call may do at all: what it is meant to, less of it, or nothing; a rename may drop its key. */
  predicate Allowed(kind: Kind, store: Contents, call: Call, o: Outcome) {
    || o == Nothing
    || o == Intended(kind, store, call)
    || (call.DoDelete? && o.Removed? && o.keys <= Deletable(kind, store, KeyStrings(call.keys)))
    || (call.DoRename? && call.from.key in store && o == Dropped(call.from.key))
  }

  /** What an outcome says about its call, and when nothing may have come of it. */
  lemma OutcomeFitsCall(kind: Kind, store: Contents, call: Call, o: Outcome)
    requires Allowed(kind, store, call, o)
    ensures match o
            case Nothing => true
            case Stored(key, value) => call.DoSet? && call.key.key.key == key && call.key.value == value
            case Removed(keys) => call.DoDelete? && keys <= KeyStrings(call.keys)
            case Moved(key, newKey) => call.DoRename? && call.from.key == key && key in store && call.newKey == newKey
            case Dropped(key) => call.DoRename? && call.from.key == key && key in store
    ensures call.DoGet? ==> o == Nothing
    ensures Possible(kind, store, o)
  {
  }

  /** One call, with out-parameters that are new: the vector given to Delete is empty. */
  method Perform(c: Connection, call: Call) returns (ghost o: Outcome)
    requires c.txn.None?
    modifies c`calls, c`txn, c`store
    modifies (if c.client == null then {} else {c.client})`mirror
    modifies (if c.client == null then {} else {c.client})`loaded
    ensures c.txn.None? && Possible(c.kind, old(c.store), o)
    ensures c.store == StoreAfter(old(c.store), o) && c.Told(o, old(c.Mirror()))
    ensures c.calls >= old(c.calls) && Allowed(c.kind, old(c.store), call, o)
    ensures c.connected && c.Smooth(old(c.calls)) ==> o == Intended(c.kind, old(c.store), call)
    ensures !c.connected ==> o == Nothing
    ensures c.client != null && call.DoGet? && c.connected && c.Smooth(old(c.calls)) && call.nkey.key in c.store ==>
              c.client.loaded == old(c.client.loaded) + [NDbKValue(call.nkey, c.store[call.nkey.key])]
  {
    hide Possible, StoreAfter, MirrorAfter, Tried, Failures, Deletable, KeyStrings;
    hide Relocated;
    NothingHappens(c.kind, c.store, c.Mirror());
    match call {
      case DoSet(key) =>
        var added := new Cell(key);
        var err := c.Set(key, added);
        o := if err.None? then Stored(key.key.key, key.value) else Nothing;
      case DoGet(key) =>
        var loaded := new Cell(NDbKValue(key, ""));
        var err := c.Get(key, loaded);
        o := Nothing;
      case DoDelete(keys) =>
        var deleted := new Cell<seq<NKey>>([]);
        var err;
        err, o := c.Delete(keys, deleted);
        if err.None? {
          TriedIsPossible(c.kind, old(c.store), KeyStrings(keys), o.keys, Failures(c.faults, old(c.calls), c.calls));
          assert KeyStrings(deleted.value) == {} + o.keys == o.keys;
        }
      case DoRename(key, newKey) =>
        var err := c.Rename(key, newKey);
        o := Renamed(key.key, newKey, err);
    }
  }

  /** After any run of calls on a connection whose client's mirror started as the store, and under any
      primitive failures, the mirror is the store plus exactly the lost keys. */
  method RunCalls(c: Connection, calls: seq<Call>) returns (ghost os: seq<Outcome>)
    requires c.txn.None? && c.client != null && c.client.mirror == c.store
    modifies c`calls, c`txn, c`store, c.client`mirror, c.client`loaded
    ensures |os| == |calls|
    ensures forall i :: 0 <= i < |os| ==> Allowed(c.kind, StoreRun(old(c.store), os[..i]), calls[i], os[i])
    ensures !c.connected ==> forall i :: 0 <= i < |os| ==> os[i] == Nothing
    ensures c.connected && c.Smooth(old(c.calls)) ==>
              && c.client.mirror == c.store
              && forall i :: 0 <= i < |os| ==> os[i] == Intended(c.kind, StoreRun(old(c.store), os[..i]), calls[i])
    ensures PossibleRun(c.kind, old(c.store), os) && c.store == StoreRun(old(c.store), os)
    ensures Covers(c.client.mirror, c.store)
    ensures forall k :: Lost(os, k) <==> k in c.client.mirror && k !in c.store
    ensures (forall i :: 0 <= i < |os| ==> !os[i].Dropped?) ==> c.client.mirror == c.store
  {
    hide Possible, PossibleRun, StoreAfter, StoreRun, MirrorAfter, MirrorRun, Covers, Lost;
    ghost var start := c.store;
    os := [];
    NothingRun(c.kind, start);
    var i := 0;
    while i < |calls|
      invariant i == |os| <= |calls| && c.txn.None?
      invariant c.calls >= old(c.calls) && AllowedRun(c.kind, start, calls[..i], os)
      invariant !c.connected ==> forall j :: 0 <= j < |os| ==> os[j] == Nothing
      invariant c.connected && c.Smooth(old(c.calls)) ==> IntendedRun(c.kind, start, calls[..i], os)
      invariant PossibleRun(c.kind, start, os) && c.store == StoreRun(start, os)
      invariant c.client.mirror == MirrorRun(start, os)
    {
      ghost var o := Perform(c, calls[i]);
      PossibleNext(c.kind, start, os, o);
      StoreNext(start, os, o);
      MirrorNext(start, os, o);
      CallNext(c.kind, start, calls, os, o);
      os := os + [o];
      i := i + 1;
    }
    MirrorTracksStore(c.kind, start, os);
    MirrorIsStore(c.kind, start, os);
    assert calls[..i] == calls;
    NothingIsDropped(c.kind, start, calls, os);
  }

  predicate AllowedRun(kind: Kind, start: Contents, calls: seq<Call>, os: seq<Outcome>)
    requires |calls| == |os|
  {
    forall i :: 0 <= i < |os| ==> Allowed(kind, StoreRun(start, os[..i]), calls[i], os[i])
  }

  predicate IntendedRun(kind: Kind, start: Contents, calls: seq<Call>, os: seq<Outcome>)
    requires |calls| == |os|
  {
    forall i :: 0 <= i < |os| ==> os[i] == Intended(kind, StoreRun(start, os[..i]), calls[i])
  }

  lemma CallNext(kind: Kind, start: Contents, calls: seq<Call>, os: seq<Outcome>, o: Outcome)
    requires |os| < |calls|
    ensures var n, store := |os|, StoreRun(start, os);
            && (AllowedRun(kind, start, calls[..n], os) && Allowed(kind, store, calls[n], o) ==>
                AllowedRun(kind, start, calls[..n + 1], os + [o]))
            && (IntendedRun(kind, start, calls[..n], os) && o == Intended(kind, store, calls[n]) ==>
                IntendedRun(kind, start, calls[..n + 1], os + [o]))
  {
    var all, n := os + [o], |os|;
    hide Allowed, Intended, StoreRun;
    assert all[..n] == os && forall i :: 0 <= i < n ==> all[..i] == os[..i] && all[i] == os[i];
  }

  lemma NothingIsDropped(kind: Kind, start: Contents, calls: seq<Call>, os: seq<Outcome>)
    requires |calls| == |os|
    ensures IntendedRun(kind, start, calls, os) ==> forall i :: 0 <= i < |os| ==> !os[i].Dropped?
  {
    hide StoreRun, Deletable;
  }

  /** What a rename did, told from its error. */
  function Renamed(key: string, newKey: string, err: Option<Error>): Outcome {
    match err
    case None => Moved(key, newKey)
    case Some(e) => if e == SetFailed then Dropped(key) else Nothing
  }

  /** A Delete into a vector that was not empty keeps the mirror true exactly when none of the keys
      already listed there is in the store. */
  lemma StaleKeys(kind: Kind, store: Contents, mirror: Contents, stale: set<string>, removed: set<string>)
    requires mirror == store
    ensures MirrorAfter(mirror, Removed(stale + removed)) == StoreAfter(store, Removed(removed))
       <==> forall k :: k in stale ==> k !in StoreAfter(store, Removed(removed))
  {
    var m, s := MirrorAfter(mirror, Removed(stale + removed)), StoreAfter(store, Removed(removed));
    if forall k :: k in stale ==> k !in s {
      assert m.Keys == s.Keys;
    } else {
      var k :| k in stale && k in s;
      assert k !in m;
    }
  }

  /** The number of failures among calls lo to hi - 1. */
  function Failures(faults: nat -> bool, lo: nat, hi: nat): nat
    decreases hi
  {
    if hi <= lo then 0 else Failures(faults, lo, hi - 1) + if faults(hi - 1) then 1 else 0
  }

  lemma {:induction false} FailuresAreCalls(faults: nat -> bool, lo: nat, hi: nat)
    ensures Failures(faults, lo, hi) == |set n | lo <= n < hi && faults(n)|
    decreases hi
  {
    var all := set n | lo <= n < hi && faults(n);
    if lo < hi {
      var less := set n | lo <= n < hi - 1 && faults(n);
      FailuresAreCalls(faults, lo, hi - 1);
      assert all == if faults(hi - 1) then less + {hi - 1} else less;
    } else {
      assert all == {};
    }
  }

  lemma {:induction false} FailuresMore(faults: nat -> bool, lo: nat, mid: nat, hi: nat)
    requires lo <= mid <= hi
    ensures Failures(faults, lo, hi) == Failures(faults, lo, mid) + Failures(faults, mid, hi)
    ensures Failures(faults, mid, hi) == 0 <==> forall n :: mid <= n < hi ==> !faults(n)
    decreases hi
  {
    if mid < hi {
      FailuresMore(faults, lo, mid, hi - 1);
    }
  }

  /** Of the keys that can be deleted at most `failures` are left out. */
  ghost predicate Tried(kind: Kind, start: Contents, keys: set<string>, now: set<string>, failures: nat) {
    now <= Deletable(kind, start, keys) && |Deletable(kind, start, keys) - now| <= failures
  }

  lemma NothingTried(kind: Kind, start: Contents, keys: seq<NKey>)
    ensures Tried(kind, start, KeyStrings(keys[..0]), KeyStrings([]), 0) && start - KeyStrings([]) == start
    ensures forall faults, n :: Failures(faults, n, n) == 0
  {
    assert Deletable(kind, start, KeyStrings(keys[..0])) - KeyStrings([]) == {};
  }

  lemma OneMoreTried(kind: Kind, start: Contents, keys: set<string>, now: set<string>, k: string,
                     failures: nat, more: nat, deleted: bool)
    requires Tried(kind, start, keys, now, failures)
    requires deleted <==> more == 0 && (kind == LEVELDB || k in start - now)
    ensures Tried(kind, start, keys + {k}, if deleted then now + {k} else now, failures + more)
  {
    var d, d' := Deletable(kind, start, keys), Deletable(kind, start, keys + {k});
    assert d <= d' <= d + {k};
    if deleted {
      Smaller(d' - (now + {k}), d - now);
    } else if k in d' && k !in now {
      assert (d' - now) - {k} <= d - now;
      Smaller((d' - now) - {k}, d - now);
      assert |d' - now| == |(d' - now) - {k}| + 1;
    } else {
      Smaller(d' - now, d - now);
    }
  }

  lemma TriedIsPossible(kind: Kind, start: Contents, keys: set<string>, now: set<string>, failures: nat)
    requires Tried(kind, start, keys, now, failures)
    ensures now <= Deletable(kind, start, keys) && Possible(kind, start, Removed(now))
  {
  }

  lemma OneLess(m: Contents, keys: set<string>, k: string)
    ensures (m - keys) - {k} == m - (keys + {k})
  {
  }

  lemma NothingHappens(kind: Kind, store: Contents, mirror: Contents)
    ensures Possible(kind, store, Nothing) && StoreAfter(store, Nothing) == store
    ensures MirrorAfter(mirror, Nothing) == mirror && KeyStrings([]) == {}
  {
  }

  lemma AllTried(kind: Kind, start: Contents, keys: set<string>, now: set<string>)
    requires Tried(kind, start, keys, now, 0)
    ensures now == Deletable(kind, start, keys)
  {
    var left := Deletable(kind, start, keys) - now;
    assert left == {};
  }

  lemma {:induction false} Smaller(a: set<string>, b: set<string>)
    requires a <= b
    ensures |a| <= |b|
    decreases |a|
  {
    if k :| k in a {
      Smaller(a - {k}, b - {k});
    }
  }

  lemma KeyStringsNext(keys: seq<NKey>, i: nat)
    requires i < |keys|
    ensures KeyStrings(keys[..i + 1]) == KeyStrings(keys[..i]) + {keys[i].key}
  {
    assert keys[..i + 1] == keys[..i] + [keys[i]];
    KeyStringsMore(keys[..i], keys[i]);
  }

  lemma KeyStringsMore(keys: seq<NKey>, key: NKey)
    ensures KeyStrings(keys + [key]) == KeyStrings(keys) + {key.key}
  {
    KeyStringsConcat(keys, [key]);
    assert [key][0].key == key.key;
    assert KeyStrings([key]) == {key.key};
  }

  lemma KeyStringsConcat(a: seq<NKey>, b: seq<NKey>)
    ensures KeyStrings(a + b) == KeyStrings(a) + KeyStrings(b)
  {
    assert forall i :: 0 <= i < |a| ==> (a + b)[i] == a[i];
    assert forall i :: 0 <= i < |b| ==> (a + b)[|a| + i] == b[i];
  }
}
