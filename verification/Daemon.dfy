/** The settings of the daemon in main.cpp: a global hash table of heap-allocated settings. */
module Daemon {
  import opened Buckets
  import opened Sequences
  import opened UtHash
  import opened SettingsSpec
  import Common = Text

  ghost predicate KeysDistinct(s: seq<Item>) { forall i, j :: 0 <= i < j < |s| ==> s[i].key != s[j].key }

  lemma WithKeys(s: seq<Item>, x: Item)
    requires KeysDistinct(s) && forall y :: y in s ==> y.key != x.key
    ensures KeysDistinct(s + [x])
  {
  }

  lemma WithoutKeys(s: seq<Item>, k: nat)
    requires KeysDistinct(s) && k < |s|
    ensures KeysDistinct(Without(s, k))
  {
  }

  lemma EntriesWithout(s: seq<Item>, k: nat)
    requires k < |s|
    ensures Entries(Without(s, k)) == Without(Entries(s), k)
  {
    WithoutAt(s, k);
    WithoutAt(Entries(s), k);
    hide Without, Entries;
    assert forall i :: 0 <= i < |s| - 1 ==> Entries(Without(s, k))[i] == Without(Entries(s), k)[i];
  }

  lemma NothingLoaded()
    ensures Load([], []) == [] && Entries([]) == [] && Chunks("") == []
  {
  }

  lemma LoadOneMore(done: seq<string>, rest: string)
    requires rest != ""
    ensures Load([], done + [Chunk(rest)]) == LoadChunk(Load([], done), Chunk(rest))
    ensures done + Chunks(rest) == (done + [Chunk(rest)]) + Chunks(rest[|Chunk(rest)|..])
  {
    var c := Chunk(rest);
    LoadNext(done, c);
    ChunksNext(rest);
    hide *;
    Assoc(done, [c], Chunks(rest[|c|..]));
  }

  lemma LoadNext(done: seq<string>, c: string)
    ensures Load([], done + [c]) == LoadChunk(Load([], done), c)
  {
    hide LoadChunk;
    assert (done + [c])[..|done|] == done;
  }

  lemma ChunksNext(rest: string)
    requires rest != ""
    ensures Chunks(rest) == [Chunk(rest)] + Chunks(rest[|Chunk(rest)|..])
  {
    hide Chunk;
  }

  class Settings {
    const settings: Hash
    ghost var live: set<Item>   // allocated by alloc_setting and not yet freed
    ghost var freed: seq<Item>  // handed to free_setting, in order

    /** No key occurs twice, and the table owns exactly the live settings; nothing is freed twice or used
        after it was freed. */
    ghost predicate Valid()
      reads this, settings, settings.order`prev, settings.order`next, settings.order`tbl, settings.order`keylen
      reads settings.order`hashv, settings.order`hhPrev, settings.order`hhNext, settings.table
      reads if settings.table == null then {} else {settings.table.buckets}
    {
      && settings.Valid() && KeysDistinct(settings.order)
      && live == SetOf(settings.order)
      && Distinct(freed)
      && forall x :: x in freed ==> x !in live
    }

    ghost function Contents(): seq<Entry>
      reads settings, settings.order`value
    {
      Entries(settings.order)
    }

    constructor (fcn: string -> nat)
      ensures Valid() && Contents() == [] && freed == [] && fresh(settings)
    {
      settings := new Hash(fcn);
      live, freed := {}, [];
    }

    lemma ContentsUnique()
      requires Valid()
      ensures KeysUnique(Contents())
    {
    }

    method AllocSetting(key: string, value: string) returns (st: Item)
      modifies this`live
      ensures fresh(st) && st.key == key && st.value == value
      ensures live == old(live) + {st}
    {
      st := new Item(key, value);
      live := live + {st};
    }

    method FreeSetting(st: Item?)
      requires st != null ==> st in live && st !in freed
      modifies this`live, this`freed
      ensures st != null ==> live == old(live) - {st} && freed == old(freed) + [st]
      ensures st == null ==> live == old(live) && freed == old(freed)
    {
      if st != null {
        live := live - {st};
        freed := freed + [st];
      }
    }

    /** Where a key sits in the list of settings. */
    lemma PlaceOf(s: Item) returns (k: nat)
      requires Valid() && s in settings.order
      ensures k < |settings.order| && settings.order[k] == s
      ensures KeysUnique(Contents()) && Contents()[k] == Entry(s.key, s.value)
    {
      k :| k < |settings.order| && settings.order[k] == s;
      ContentsUnique();
    }

    lemma Absent(key: string)
      requires Valid() && forall x :: x in settings.order ==> x.key != key
      ensures KeysUnique(Contents()) && !HasKey(Contents(), key)
    {
      ContentsUnique();
      var es := Contents();
      forall i | 0 <= i < |es| ensures es[i].key != key {
        assert settings.order[i] in settings.order;
      }
    }

    /** find_setting */
    method FindSetting(key: string) returns (s: Item?)
      requires Valid()
      ensures if key in Denotes(Contents())
              then s != null && s in live && s.key == key && s.value == Denotes(Contents())[key]
              else s == null
    {
      hide Hash.Valid, KeysDistinct, Denotes;
      s := settings.Find(key);
      DenotesOnly(Contents(), key);
      if s != null {
        ghost var k := PlaceOf(s);
        DenotesAt(Contents(), k);
      } else {
        Absent(key);
      }
    }

    /** add_setting */
    method AddSetting(key: string, value: string)
      requires Valid()
      modifies this`live, settings, live, settings.table
      modifies if settings.table == null then {} else {settings.table.buckets}
      ensures Valid() && Contents() == Put(old(Contents()), key, value)
      ensures freed == old(freed)
      ensures fresh(live - old(live))
      ensures settings.table == old(settings.table) || fresh(settings.table)
      ensures settings.table.buckets == old(if settings.table == null then null else settings.table.buckets)
              || fresh(settings.table.buckets)
    {
      hide Hash.Valid, KeysDistinct, Put, Entries, Distinct;
      var s := settings.Find(key);
      if s == null {
        Absent(key);
        PutShape(Contents(), key, value, |Contents()|);
        InsertSetting(key, value);
      } else {
        ghost var k := PlaceOf(s);
        FirstTwo();
        PutShape(Contents(), key, value, k);
        s.value := value;
        assert Contents() == old(Contents())[k := Entry(key, value)];
      }
    }

    /** The branch of add_setting for a new key. */
    method InsertSetting(key: string, value: string)
      requires Valid() && forall x :: x in settings.order ==> x.key != key
      modifies this`live, settings, live, settings.table
      modifies if settings.table == null then {} else {settings.table.buckets}
      ensures Valid() && Contents() == old(Contents()) + [Entry(key, value)]
      ensures freed == old(freed)
      ensures fresh(live - old(live))
      ensures settings.table == old(settings.table) || fresh(settings.table)
      ensures settings.table.buckets == old(if settings.table == null then null else settings.table.buckets)
              || fresh(settings.table.buckets)
    {
      hide Hash.Valid, KeysDistinct, Entries, Distinct;
      var st := AllocSetting(key, value);
      WithKeys(settings.order, st);
      settings.Add(st);
      EntriesOfAppend(old(settings.order), st);
    }

    /** delete_setting */
    method DeleteSetting(st: Item)
      requires Valid() && st in settings.order
      modifies this`live, this`freed, settings, live, settings.table, settings.table.buckets
      ensures Valid() && Contents() == Erase(old(Contents()), st.key)
      ensures freed == old(freed) + [st]
      ensures forall k :: 0 <= k < |old(settings.order)| && old(settings.order[k]) == st ==>
                settings.order == Without(old(settings.order), k)
      ensures settings.table == null ||
                (settings.table == old(settings.table) && settings.table.buckets == old(settings.table.buckets))
    {
      hide Hash.Valid, KeysDistinct, Erase, Entries, Distinct;
      ghost var k := PlaceOf(st);
      WithoutPlace(k);
      DistinctWith(freed, st);
      settings.Delete(st, k);
      FreeSetting(st);
    }

    lemma WithoutPlace(k: nat)
      requires Valid() && k < |settings.order|
      ensures settings.table != null
      ensures KeysDistinct(Without(settings.order, k))
      ensures SetOf(Without(settings.order, k)) == live - {settings.order[k]}
      ensures Entries(Without(settings.order, k)) == Erase(Contents(), settings.order[k].key)
    {
      ContentsUnique();
      EraseShape(Contents(), settings.order[k].key, k);
      WithoutSet(settings.order, k);
      EntriesWithout(settings.order, k);
      WithoutKeys(settings.order, k);
    }

    lemma FirstTwo()
      requires Valid()
      ensures settings.head == At(settings.order, 0)
      ensures settings.head != null ==> settings.head.next == At(settings.order, 1)
      ensures settings.table == null <==> settings.order == []
    {
    }

    /** One round of the HASH_ITER loop of delete_all_setting. */
    method DeleteAndStep(el: Item, tmp: Item?) returns (el': Item?, tmp': Item?)
      requires Valid() && settings.order != [] && el == settings.order[0] && tmp == At(settings.order, 1)
      modifies this`live, this`freed, settings, live, settings.table, settings.table.buckets
      ensures Valid() && settings.order == old(settings.order)[1..]
      ensures el' == At(settings.order, 0) && tmp' == At(settings.order, 1)
      ensures freed == old(freed) + [el]
      ensures settings.table == null ||
                (settings.table == old(settings.table) && settings.table.buckets == old(settings.table.buckets))
    {
      hide Hash.Valid, KeysDistinct, Distinct;
      FirstTwo();
      DeleteSetting(el);
      FirstTwo();
      el' := tmp;
      tmp' := if tmp != null then tmp.next else null;
    }

    /** delete_all_setting: HASH_ITER fetches the successor before the current setting is freed. */
    method DeleteAllSetting()
      requires Valid()
      modifies this`live, this`freed, settings, live, settings.table
      modifies if settings.table == null then {} else {settings.table.buckets}
      ensures Valid() && settings.order == [] && settings.table == null && live == {}
      ensures freed == old(freed) + old(settings.order)
    {
      hide Hash.Valid, KeysDistinct, Distinct;
      FirstTwo();
      var el := settings.head;
      var tmp := if settings.head != null then settings.head.next else null;
      ghost var i := 0;
      while el != null
        invariant Valid() && i <= |old(settings.order)| && settings.order == old(settings.order)[i..]
        invariant el == At(settings.order, 0) && tmp == At(settings.order, 1)
        invariant freed == old(freed) + old(settings.order)[..i]
        invariant settings.table == null ||
                    (settings.table == old(settings.table) && settings.table.buckets == old(settings.table.buckets))
        decreases |settings.order|
      {
        FirstTwo();
        el, tmp := DeleteAndStep(el, tmp);
        i := i + 1;
      }
      FirstTwo();
    }

    /** fgets into buff[SBUF_SIZE]: the next chunk, or nothing at the end; `eof` is what feof says then. */
    method Fgets(rest: string) returns (ok: bool, chunk: string, rest': string, eof: bool)
      ensures ok == (rest != "") && chunk == Chunk(rest) && rest' == rest[|chunk|..]
      ensures eof ==> rest' == ""
      ensures rest == "" ==> eof
    {
      ok, chunk := rest != "", Chunk(rest);
      rest' := rest[|chunk|..];
      eof := rest' == "" && |chunk| < SBUF_SIZE - 1 && (chunk == "" || chunk[|chunk| - 1] != '\n');
    }

    /** The body of the reading loop: the line up to CR or LF is split at its first '='. */
    method LoadLine(buff: string)
      requires Valid()
      modifies this`live, settings, live, settings.table
      modifies if settings.table == null then {} else {settings.table.buckets}
      ensures Valid() && Contents() == LoadChunk(old(Contents()), buff)
      ensures freed == old(freed)
      ensures fresh(live - old(live))
      ensures settings.table == old(settings.table) || fresh(settings.table)
      ensures settings.table == null || fresh(settings.table.buckets) ||
                settings.table.buckets == old(if settings.table == null then null else settings.table.buckets)
    {
      hide Hash.Valid, KeysDistinct, Put, Entries, Span;
      var line := Text(buff);
      var pos := Span(line, {'='});
      AssignsIff(buff);
      if pos < |line| {
        AddSetting(line[..pos], line[pos + 1..]);
      }
    }

    /** The reading loop of read_config_file. */
    method LoadFile(text: string)
      requires Valid() && settings.order == [] && settings.table == null && live == {}
      modifies this`live, settings
      ensures Valid() && Contents() == Load([], Chunks(text)) && freed == old(freed)
      ensures fresh(live) && (settings.table == null || (fresh(settings.table) && fresh(settings.table.buckets)))
    {
      hide Hash.Valid, KeysDistinct, Chunk, Chunks, Load, LoadChunk, Distinct, Entries;
      var rest, eof := text, false;
      ghost var done: seq<string> := [];
      NothingLoaded();
      while !eof
        invariant Valid() && freed == old(freed)
        invariant done + Chunks(rest) == Chunks(text) && Contents() == Load([], done)
        invariant eof ==> rest == ""
        invariant fresh(live)
        invariant settings.table == null || (fresh(settings.table) && fresh(settings.table.buckets))
        decreases |rest|, !eof
      {
        var ok, buff;
        ghost var before := rest;
        ok, buff, rest, eof := Fgets(rest);
        if ok {
          LoadLine(buff);
          LoadOneMore(done, before);
          done := done + [buff];
        }
      }
      assert rest == "" && done + [] == done;
    }

    /** read_config_file; `content` is None when the file cannot be opened. */
    method ReadConfigFile(content: Common.Option<string>)
      requires Valid()
      modifies this`live, this`freed, settings, live, settings.table
      modifies if settings.table == null then {} else {settings.table.buckets}
      ensures Valid()
      ensures Contents() == (match content case None => [] case Some(text) => Load([], Chunks(text)))
      ensures freed == old(freed) + old(settings.order)
      ensures fresh(live) && (settings.table == null || (fresh(settings.table) && fresh(settings.table.buckets)))
    {
      hide Hash.Valid, KeysDistinct, Chunk, Load, Distinct;
      DeleteAllSetting();
      if content.Some? {
        LoadFile(content.value);
      }
    }

    /** One command of a run: what the daemon's functions do for it. */
    method Perform(c: Cmd)
      requires Valid()
      modifies this`live, this`freed, settings, live, settings.table
      modifies if settings.table == null then {} else {settings.table.buckets}
      ensures Valid() && Contents() == Step(old(Contents()), c)
      ensures fresh(live - old(live))
      ensures settings.table == null || settings.table == old(settings.table) || fresh(settings.table)
      ensures settings.table == null || fresh(settings.table.buckets) ||
                settings.table.buckets == old(if settings.table == null then null else settings.table.buckets)
    {
      hide Hash.Valid, KeysDistinct, Put, Erase, Load, Chunks, Entries, Distinct, Denotes;
      match c {
        case Add(key, value) =>
          AddSetting(key, value);
        case Delete(key) =>
          var st := settings.Find(key);
          if st != null {
            FirstTwo();
            DeleteSetting(st);
          } else {
            Absent(key);
            EraseShape(Contents(), key, |Contents()|);
          }
        case DeleteAll =>
          DeleteAllSetting();
        case Reload(content) =>
          ReadConfigFile(content);
      }
    }

    /** Any run of add, delete, delete-all and reload acts on the heap table as it would on a map. */
    method RunAll(cs: seq<Cmd>)
      requires Valid()
      modifies this`live, this`freed, settings, live, settings.table
      modifies if settings.table == null then {} else {settings.table.buckets}
      ensures Valid() && KeysUnique(Contents())
      ensures Denotes(Contents()) == RunMap(old(Denotes(Contents())), cs)
    {
      hide Hash.Valid, KeysDistinct, Step, Entries, Distinct, Denotes, Run, RunMap;
      ghost var es := Contents();
      ContentsUnique();
      var i := 0;
      RunSoFar(es, cs, 0);
      while i < |cs|
        invariant i <= |cs| && Valid() && Contents() == Run(es, cs[..i])
        invariant fresh(live - old(live))
        invariant settings.table == null || settings.table == old(settings.table) || fresh(settings.table)
        invariant settings.table == null || fresh(settings.table.buckets) ||
                    settings.table.buckets == old(if settings.table == null then null else settings.table.buckets)
      {
        RunSoFar(es, cs, i);
        Perform(cs[i]);
        i := i + 1;
      }
      assert cs[..i] == cs;
      RunRefinesMap(es, cs);
    }
  }
}
