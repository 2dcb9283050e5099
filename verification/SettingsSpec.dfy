/** The daemon's settings as a mathematical object: a list of entries with distinct keys, in
    insertion order, and the map that it denotes. */
module SettingsSpec {
  import opened Buckets
  import Common = Text

  const SBUF_SIZE := 256

  ghost predicate KeysUnique(es: seq<Entry>) { forall i, j :: 0 <= i < j < |es| ==> es[i].key != es[j].key }

  ghost predicate HasKey(es: seq<Entry>, key: string) { exists i :: 0 <= i < |es| && es[i].key == key }

  ghost function Denotes(es: seq<Entry>): map<string, string> {
    if es == [] then map[] else Denotes(es[..|es| - 1])[es[|es| - 1].key := es[|es| - 1].value]
  }

  /** add_setting: overwrite the value in place, or append a new entry. */
  ghost function Put(es: seq<Entry>, key: string, value: string): seq<Entry> {
    if es == [] then [Entry(key, value)]
    else if es[0].key == key then [Entry(key, value)] + es[1..]
    else [es[0]] + Put(es[1..], key, value)
  }

  /** delete_setting */
  ghost function Erase(es: seq<Entry>, key: string): seq<Entry> {
    if es == [] then []
    else if es[0].key == key then es[1..]
    else [es[0]] + Erase(es[1..], key)
  }

  // ----- reading the configuration file -----

  /** Length of the longest prefix without any of `stops`: strcspn. */
  function Span(s: string, stops: set<char>): (n: nat)
    ensures n <= |s|
    ensures forall i :: 0 <= i < n ==> s[i] !in stops
    ensures n < |s| ==> s[n] in stops
  {
    if s == [] || s[0] in stops then 0 else 1 + Span(s[1..], stops)
  }

  /** What one fgets into a buffer of SBUF_SIZE reads: up to and including a newline, but never
      more than SBUF_SIZE - 1 characters. */
  function Chunk(s: string): (c: string)
    ensures c <= s && |c| < SBUF_SIZE && (s != "" ==> c != "")
  {
    var n := Span(s, {'\n'});
    var m := if n < |s| then n + 1 else n;
    s[..if m < SBUF_SIZE then m else SBUF_SIZE - 1]
  }

  function Chunks(s: string): seq<string> {
    if s == "" then [] else [Chunk(s)] + Chunks(s[|Chunk(s)|..])
  }

  /** The text of a chunk: a C string cut at its first CR or LF. */
  function Text(chunk: string): string { chunk[..Span(chunk, {'\0', '\r', '\n'})] }

  ghost predicate Assigns(chunk: string) { '=' in Text(chunk) }

  function KeyOf(chunk: string): string { Text(chunk)[..Span(Text(chunk), {'='})] }

  function ValueOf(chunk: string): string
    requires Span(Text(chunk), {'='}) < |Text(chunk)|
  {
    Text(chunk)[Span(Text(chunk), {'='}) + 1..]
  }

  lemma AssignsIff(chunk: string)
    ensures Assigns(chunk) <==> Span(Text(chunk), {'='}) < |Text(chunk)|
  {
  }

  ghost function LoadChunk(es: seq<Entry>, chunk: string): seq<Entry> {
    AssignsIff(chunk);
    if Assigns(chunk) then Put(es, KeyOf(chunk), ValueOf(chunk)) else es
  }

  ghost function Load(es: seq<Entry>, chunks: seq<string>): seq<Entry> {
    if chunks == [] then es else LoadChunk(Load(es, chunks[..|chunks| - 1]), chunks[|chunks| - 1])
  }

  // ----- the list refines the map -----

  lemma {:induction false} DenotesAt(es: seq<Entry>, i: nat)
    requires KeysUnique(es) && i < |es|
    ensures es[i].key in Denotes(es) && Denotes(es)[es[i].key] == es[i].value
    decreases |es|
  {
    if i < |es| - 1 {
      DenotesAt(es[..|es| - 1], i);
    }
  }

  lemma {:induction false} DenotesOnly(es: seq<Entry>, key: string)
    ensures key in Denotes(es) <==> HasKey(es, key)
    decreases |es|
  {
    if es != [] {
      var front := es[..|es| - 1];
      DenotesOnly(front, key);
      if HasKey(front, key) {
        var i :| 0 <= i < |front| && front[i].key == key;
        assert es[i].key == key;
      }
    }
  }

  /** A list with unique keys denotes `m` exactly when it holds the pairs of `m`. */
  lemma DenotesUniquely(es: seq<Entry>, m: map<string, string>)
    requires KeysUnique(es)
    requires forall i :: 0 <= i < |es| ==> es[i].key in m && m[es[i].key] == es[i].value
    requires forall k :: k in m ==> HasKey(es, k)
    ensures Denotes(es) == m
  {
    forall k ensures k in Denotes(es) <==> k in m {
      DenotesOnly(es, k);
    }
    forall k | k in m ensures Denotes(es)[k] == m[k] {
      var i :| 0 <= i < |es| && es[i].key == k;
      DenotesAt(es, i);
    }
  }

  /** Put changes one value or appends; everything else keeps its place. */
  lemma {:induction false} PutShape(es: seq<Entry>, key: string, value: string, k: nat)
    requires KeysUnique(es) && k <= |es|
    requires if k < |es| then es[k].key == key else !HasKey(es, key)
    ensures Put(es, key, value) == if k < |es| then es[k := Entry(key, value)] else es + [Entry(key, value)]
    decreases |es|
  {
    if es != [] && k > 0 {
      var t := es[1..];
      assert es == [es[0]] + t;
      if k < |es| {
        PutShape(t, key, value, k - 1);
      } else {
        assert es[0].key != key && forall i :: 0 <= i < |t| ==> t[i] == es[i + 1];
        PutShape(t, key, value, |t|);
      }
    }
  }

  lemma EraseNext(es: seq<Entry>, key: string)
    requires es != []
    ensures Erase(es, key) == if es[0].key == key then Without(es, 0) else [es[0]] + Erase(es[1..], key)
    ensures Erase([], key) == []
  {
  }

  lemma HeadAndTail(es: seq<Entry>)
    requires es != []
    ensures es == [es[0]] + es[1..]
  {
  }

  lemma WithoutNext(es: seq<Entry>, k: nat)
    requires 0 < k < |es|
    ensures Without(es, k) == [es[0]] + Without(es[1..], k - 1)
  {
    assert es[..k] == [es[0]] + es[1..][..k - 1] && es[k + 1..] == es[1..][k..];
  }

  lemma KeysOfTail(es: seq<Entry>, key: string)
    requires KeysUnique(es) && es != []
    ensures KeysUnique(es[1..])
    ensures !HasKey(es, key) ==> es[0].key != key && !HasKey(es[1..], key)
  {
  }

  lemma {:induction false} EraseShape(es: seq<Entry>, key: string, k: nat)
    requires KeysUnique(es) && k <= |es|
    requires if k < |es| then es[k].key == key else !HasKey(es, key)
    ensures Erase(es, key) == if k < |es| then Without(es, k) else es
    decreases |es|
  {
    if es == [] {
      assert Erase([], key) == [];
    } else {
      EraseNext(es, key);
      KeysOfTail(es, key);
      assert 0 < k < |es| ==> es[0].key != key;
      hide *;
      if 0 < k {
        EraseShape(es[1..], key, k - 1);
        HeadAndTail(es);
        if k < |es| {
          WithoutNext(es, k);
        }
      }
    }
  }

  lemma ReplaceRefinesMap(es: seq<Entry>, k: nat, value: string)
    requires KeysUnique(es) && k < |es|
    ensures var es' := es[k := Entry(es[k].key, value)];
            KeysUnique(es') && Denotes(es') == Denotes(es)[es[k].key := value]
  {
    hide Denotes;
    var es', m := es[k := Entry(es[k].key, value)], Denotes(es)[es[k].key := value];
    assert forall i :: 0 <= i < |es| ==> es'[i].key == es[i].key;
    forall i | 0 <= i < |es'| ensures es'[i].key in m && m[es'[i].key] == es'[i].value {
      DenotesAt(es, i);
    }
    forall x | x in m ensures HasKey(es', x) {
      if x != es[k].key {
        DenotesOnly(es, x);
        var i :| 0 <= i < |es| && es[i].key == x;
        assert es'[i].key == x;
      } else {
        assert es'[k].key == x;
      }
    }
    DenotesUniquely(es', m);
  }

  lemma AppendRefinesMap(es: seq<Entry>, key: string, value: string)
    requires KeysUnique(es) && !HasKey(es, key)
    ensures var es' := es + [Entry(key, value)];
            KeysUnique(es') && Denotes(es') == Denotes(es)[key := value]
  {
    hide Denotes;
    var es', m := es + [Entry(key, value)], Denotes(es)[key := value];
    assert es'[|es|].key == key && forall i :: 0 <= i < |es| ==> es'[i] == es[i];
    forall i | 0 <= i < |es'| ensures es'[i].key in m && m[es'[i].key] == es'[i].value {
      if i < |es| { DenotesAt(es, i); }
    }
    forall x | x in m ensures HasKey(es', x) {
      if x != key {
        DenotesOnly(es, x);
        var i :| 0 <= i < |es| && es[i].key == x;
        assert es'[i].key == x;
      }
    }
    DenotesUniquely(es', m);
  }

  lemma PutRefinesMap(es: seq<Entry>, key: string, value: string)
    requires KeysUnique(es)
    ensures KeysUnique(Put(es, key, value))
    ensures Denotes(Put(es, key, value)) == Denotes(es)[key := value]
  {
    hide Put, Denotes, KeysUnique;
    if HasKey(es, key) {
      var k :| 0 <= k < |es| && es[k].key == key;
      PutShape(es, key, value, k);
      ReplaceRefinesMap(es, k, value);
    } else {
      PutShape(es, key, value, |es|);
      AppendRefinesMap(es, key, value);
    }
  }

  lemma EraseRefinesMap(es: seq<Entry>, key: string)
    requires KeysUnique(es)
    ensures KeysUnique(Erase(es, key))
    ensures Denotes(Erase(es, key)) == Denotes(es) - {key}
  {
    if HasKey(es, key) {
      var k :| 0 <= k < |es| && es[k].key == key;
      EraseShape(es, key, k);
      WithoutRefinesMap(es, k);
    } else {
      EraseShape(es, key, |es|);
      DenotesOnly(es, key);
    }
  }

  lemma WithoutRefinesMap(es: seq<Entry>, k: nat)
    requires KeysUnique(es) && k < |es|
    ensures KeysUnique(Without(es, k))
    ensures Denotes(Without(es, k)) == Denotes(es) - {es[k].key}
  {
    WithoutAt(es, k);
    hide Without, Denotes;
    var es', m := Without(es, k), Denotes(es) - {es[k].key};
    forall i | 0 <= i < |es'| ensures es'[i].key in m && m[es'[i].key] == es'[i].value {
      DenotesAt(es, if i < k then i else i + 1);
    }
    forall x | x in m ensures HasKey(es', x) {
      DenotesOnly(es, x);
      KeyStays(es, k, x);
    }
    DenotesUniquely(es', m);
  }

  lemma KeyStays(es: seq<Entry>, k: nat, x: string)
    requires k < |es| && HasKey(es, x) && x != es[k].key
    ensures HasKey(Without(es, k), x)
  {
    var i :| 0 <= i < |es| && es[i].key == x;
    assert Without(es, k)[if i < k then i else i - 1].key == x;
  }

  // ----- whole runs -----

  datatype Cmd =
    | Add(key: string, value: string)
    | Delete(key: string)
    | DeleteAll
    | Reload(content: Common.Option<string>)  // None when the file cannot be opened

  ghost function Step(es: seq<Entry>, c: Cmd): seq<Entry> {
    match c
    case Add(k, v) => Put(es, k, v)
    case Delete(k) => Erase(es, k)
    case DeleteAll => []
    case Reload(content) => if content.None? then [] else Load([], Chunks(content.value))
  }

  ghost function Run(es: seq<Entry>, cs: seq<Cmd>): seq<Entry>
    decreases |cs|
  {
    if cs == [] then es else Run(Step(es, cs[0]), cs[1..])
  }

  /** The run of the first i commands, and one command more. */
  lemma {:induction false} RunSoFar(es: seq<Entry>, cs: seq<Cmd>, i: nat)
    requires i <= |cs|
    ensures Run(es, cs[..0]) == es
    ensures i < |cs| ==> Run(es, cs[..i + 1]) == Step(Run(es, cs[..i]), cs[i])
    decreases i
  {
    hide Step;
    if 0 < i < |cs| {
      RunSoFar(Step(es, cs[0]), cs[1..], i - 1);
      assert cs[..i][1..] == cs[1..][..i - 1] && cs[..i + 1][1..] == cs[1..][..i];
    } else if i < |cs| {
      assert cs[..1][1..] == [];
    }
  }

  /** The same commands on a plain map. */
  ghost function LoadMap(m: map<string, string>, chunks: seq<string>): map<string, string> {
    if chunks == [] then m
    else
      var m', c := LoadMap(m, chunks[..|chunks| - 1]), chunks[|chunks| - 1];
      AssignsIff(c);
      if Assigns(c) then m'[KeyOf(c) := ValueOf(c)] else m'
  }

  ghost function StepMap(m: map<string, string>, c: Cmd): map<string, string> {
    match c
    case Add(k, v) => m[k := v]
    case Delete(k) => m - {k}
    case DeleteAll => map[]
    case Reload(content) => if content.None? then map[] else LoadMap(map[], Chunks(content.value))
  }

  ghost function RunMap(m: map<string, string>, cs: seq<Cmd>): map<string, string>
    decreases |cs|
  {
    if cs == [] then m else RunMap(StepMap(m, cs[0]), cs[1..])
  }

  lemma {:induction false} LoadRefinesMap(es: seq<Entry>, chunks: seq<string>)
    requires KeysUnique(es)
    ensures KeysUnique(Load(es, chunks))
    ensures Denotes(Load(es, chunks)) == LoadMap(Denotes(es), chunks)
    decreases |chunks|
  {
    if chunks != [] {
      var c := chunks[|chunks| - 1];
      LoadRefinesMap(es, chunks[..|chunks| - 1]);
      AssignsIff(c);
      if Assigns(c) {
        PutRefinesMap(Load(es, chunks[..|chunks| - 1]), KeyOf(c), ValueOf(c));
      }
    }
  }

  /** Any run of the daemon's commands acts on the settings as it would on a map. */
  lemma {:induction false} RunRefinesMap(es: seq<Entry>, cs: seq<Cmd>)
    requires KeysUnique(es)
    ensures KeysUnique(Run(es, cs))
    ensures Denotes(Run(es, cs)) == RunMap(Denotes(es), cs)
    decreases |cs|
  {
    if cs != [] {
      match cs[0] {
        case Add(k, v) => PutRefinesMap(es, k, v);
        case Delete(k) => EraseRefinesMap(es, k);
        case DeleteAll =>
        case Reload(content) => LoadRefinesMap([], if content.None? then [] else Chunks(content.value));
      }
      RunRefinesMap(Step(es, cs[0]), cs[1..]);
    }
  }

  ghost predicate AssignsKey(chunk: string, key: string) { Assigns(chunk) && KeyOf(chunk) == key }

  /** After a reload a key has the value of the last chunk that assigns it, and is absent when no chunk does. */
  lemma {:induction false} LastAssignmentWins(chunks: seq<string>, key: string, i: nat)
    requires i <= |chunks|
    requires i < |chunks| ==> AssignsKey(chunks[i], key)
    requires forall j :: (if i == |chunks| then 0 else i + 1) <= j < |chunks| ==> !AssignsKey(chunks[j], key)
    ensures i == |chunks| ==> key !in LoadMap(map[], chunks)
    ensures i < |chunks| ==>
              && key in LoadMap(map[], chunks)
              && Span(Text(chunks[i]), {'='}) < |Text(chunks[i])|
              && LoadMap(map[], chunks)[key] == ValueOf(chunks[i])
    decreases |chunks|
  {
    if chunks != [] {
      var front, c := chunks[..|chunks| - 1], chunks[|chunks| - 1];
      AssignsIff(c);
      if i == |chunks| {
        LastAssignmentWins(front, key, |front|);
        assert !AssignsKey(c, key);
      } else if i < |chunks| - 1 {
        LastAssignmentWins(front, key, i);
        assert !AssignsKey(c, key);
      }
    }
  }

  /** fgets stops after a newline, at the end of the file, or when 255 characters are read, and nowhere
      else. */
  lemma ChunkIsOnly(s: string, c: string)
    requires s != ""
    ensures c == Chunk(s) <==>
            && c != "" && |c| <= 255 && c <= s
            && '\n' !in c[..|c| - 1]
            && (c == s || c[|c| - 1] == '\n' || |c| == 255)
  {
    var d, n := Chunk(s), Span(s, {'\n'});
    if c != "" && c <= s && '\n' !in c[..|c| - 1] && (c == s || c[|c| - 1] == '\n' || |c| == 255) && |c| <= 255 {
      assert forall i :: 0 <= i < |c| - 1 ==> s[i] == c[..|c| - 1][i];
      assert n >= |c| - 1 && c == s[..|c|];
      assert s[|c| - 1] == c[|c| - 1];
    }
  }

  /** The line of a setting. */
  function LineOf(e: Entry): string { e.key + "=" + e.value + "\n" }

  function FileOf(es: seq<Entry>): string { if es == [] then "" else LineOf(es[0]) + FileOf(es[1..]) }

  /** A setting that fits the buffer with its '=', its newline and the final NUL, and whose texts have
      no character that ends a key or a line. */
  predicate Writable(e: Entry) {
    && |e.key| + |e.value| + 3 <= 256
    && CleanText(e.key) && '=' !in e.key && CleanText(e.value)
  }

  predicate CleanText(s: string) { forall c :: c in s ==> c != '\r' && c != '\n' && c != '\0' }

  /** The text of a chunk ends at its first CR, LF or NUL, or with the chunk. */
  lemma TextIs(text: string, tail: string)
    requires CleanText(text) && (tail == "" || tail[0] == '\r' || tail[0] == '\n' || tail[0] == '\0')
    ensures Text(text + tail) == text
  {
    var chunk, n := text + tail, Span(text + tail, {'\0', '\r', '\n'});
    assert forall i :: 0 <= i < |text| ==> chunk[i] == text[i] && text[i] in text;
    assert tail != "" ==> chunk[|text|] == tail[0];
    assert n == |text|;
  }

  /** A chunk assigns what is after the first '=' of its text to what is before; one without '=' in its
      text assigns nothing. */
  lemma KeyAndValue(key: string, value: string, tail: string)
    requires CleanText(key) && CleanText(value) && '=' !in key
    requires tail == "" || tail[0] == '\r' || tail[0] == '\n' || tail[0] == '\0'
    ensures var c := key + "=" + value + tail;
            && Assigns(c) && KeyOf(c) == key
            && Span(Text(c), {'='}) < |Text(c)| && ValueOf(c) == value
    ensures !Assigns(key + tail)
  {
    var text := key + "=" + value;
    TextIs(text, tail);
    TextIs(key, tail);
    hide Text;
    assert text[|key|] == '=' && forall i :: 0 <= i < |key| ==> text[i] == key[i] && key[i] in key;
    assert Span(text, {'='}) == |key|;
    assert text[..|key|] == key && text[|key| + 1..] == value;
  }

  /** The line of a setting is one chunk, and assigns the value to the key. */
  lemma LineIsChunk(e: Entry, rest: string)
    requires Writable(e)
    ensures var l := LineOf(e);
            && Chunk(l + rest) == l && Assigns(l) && KeyOf(l) == e.key
            && Span(Text(l), {'='}) < |Text(l)| && ValueOf(l) == e.value
  {
    var l := LineOf(e);
    hide Text, Assigns, KeyOf, ValueOf, Chunk, Span;
    KeyAndValue(e.key, e.value, "\n");
    assert forall i :: 0 <= i < |e.key| ==> l[i] == e.key[i] && e.key[i] in e.key;
    forall i | |e.key| < i < |l| - 1 ensures l[i] in e.value {
      assert l[i] == e.value[i - |e.key| - 1];
    }
    assert forall i :: 0 <= i < |l| - 1 ==> l[..|l| - 1][i] == l[i] != '\n';
    ChunkIsOnly(l + rest, l);
  }

  lemma TextIsClean(chunk: string)
    ensures CleanText(Text(chunk)) && Text(chunk) <= chunk
  {
  }

  /** Nothing else is read back: the line of any other setting is cut, or assigns something else. */
  lemma WritableIff(e: Entry)
    ensures var l := LineOf(e);
            Writable(e) <==>
              Chunk(l) == l && Span(Text(l), {'='}) < |Text(l)| && KeyOf(l) == e.key && ValueOf(l) == e.value
  {
    var l := LineOf(e);
    if Writable(e) {
      LineIsChunk(e, "");
      assert l + "" == l;
    } else if Chunk(l) == l && Span(Text(l), {'='}) < |Text(l)| && KeyOf(l) == e.key && ValueOf(l) == e.value {
      OnlyWritable(e);
    }
  }

  lemma OnlyWritable(e: Entry)
    requires var l := LineOf(e);
             Chunk(l) == l && Span(Text(l), {'='}) < |Text(l)| && KeyOf(l) == e.key && ValueOf(l) == e.value
    ensures Writable(e)
  {
    var l := LineOf(e);
    hide Chunk;
    TextIsClean(l);
    var n := Span(Text(l), {'='});
    assert Text(l) == e.key + "=" + e.value;
    assert forall c :: c in e.key ==> c in Text(l);
    assert forall c :: c in e.value ==> c in Text(l);
    assert forall i :: 0 <= i < n ==> Text(l)[i] == e.key[i] != '=';
  }

  lemma {:induction false} ChunksOfFile(es: seq<Entry>)
    requires forall e :: e in es ==> Writable(e)
    ensures Chunks(FileOf(es)) == seq(|es|, i requires 0 <= i < |es| => LineOf(es[i]))
    decreases |es|
  {
    if es != [] {
      var l, rest := LineOf(es[0]), FileOf(es[1..]);
      assert es[0] in es && forall e :: e in es[1..] ==> e in es;
      LineIsChunk(es[0], rest);
      hide Chunk, Writable, LineOf;
      ChunksOfFile(es[1..]);
      assert (l + rest)[|l|..] == rest;
    }
  }

  lemma {:induction false} LoadLines(es: seq<Entry>, lines: seq<string>)
    requires |lines| == |es| && forall i :: 0 <= i < |es| ==> Writable(es[i]) && lines[i] == LineOf(es[i])
    ensures LoadMap(map[], lines) == Denotes(es)
    decreases |es|
  {
    hide LineOf, Writable, Text, KeyOf, Assigns, Span;
    if es != [] {
      var n := |es| - 1;
      LoadLines(es[..n], lines[..n]);
      LineIsChunk(es[n], "");
    }
  }

  /** A list of assignments denotes, for each key, the value of its last one. */
  lemma {:induction false} DenotesLast(es: seq<Entry>, i: nat)
    requires i < |es| && forall j :: i < j < |es| ==> es[j].key != es[i].key
    ensures es[i].key in Denotes(es) && Denotes(es)[es[i].key] == es[i].value
    decreases |es|
  {
    var n := |es| - 1;
    if i < n {
      DenotesLast(es[..n], i);
    }
  }

  /** Reloading a file of settings, one to a line, gives every key the value of its last line, and
      no other key. */
  lemma FileIsRead(es: seq<Entry>, key: string)
    requires forall e :: e in es ==> Writable(e)
    ensures Denotes(Load([], Chunks(FileOf(es)))) == Denotes(es)
    ensures key in Denotes(es) <==> HasKey(es, key)
    ensures forall i :: 0 <= i < |es| && es[i].key == key && (forall j :: i < j < |es| ==> es[j].key != key) ==>
              key in Denotes(es) && Denotes(es)[key] == es[i].value
  {
    hide Denotes, LoadMap, Load, Chunks, FileOf, LineOf, Writable;
    ChunksOfFile(es);
    var lines := Chunks(FileOf(es));
    assert forall i :: 0 <= i < |es| ==> es[i] in es;
    LoadLines(es, lines);
    NothingDenoted();
    LoadRefinesMap([], lines);
    DenotesOnly(es, key);
    forall i | 0 <= i < |es| && es[i].key == key && forall j :: i < j < |es| ==> es[j].key != key
      ensures key in Denotes(es) && Denotes(es)[key] == es[i].value
    {
      DenotesLast(es, i);
    }
  }

  /** Whatever was set before, a reload leaves what the file says, and nothing when it cannot be opened. */
  lemma ReloadReplaces(es: seq<Entry>, cs: seq<Cmd>, file: seq<Entry>)
    requires KeysUnique(es) && forall e :: e in file ==> Writable(e)
    ensures Denotes(Run(es, cs + [Reload(Common.Some(FileOf(file)))])) == Denotes(file)
    ensures Denotes(Run(es, cs + [Reload(Common.None)])) == map[] == Denotes(Run(es, cs + [DeleteAll]))
  {
    hide Run, Denotes, Load, Chunks, FileOf, Writable;
    NothingDenoted();
    FileIsRead(file, "");
    RunThen(es, cs, Reload(Common.Some(FileOf(file))));
    RunThen(es, cs, Reload(Common.None));
    RunThen(es, cs, DeleteAll);
  }

  lemma RunThen(es: seq<Entry>, cs: seq<Cmd>, c: Cmd)
    ensures Run(es, cs + [c]) == Step(Run(es, cs), c)
  {
    hide Run, Step;
    RunSoFar(es, cs + [c], |cs|);
    assert (cs + [c])[..|cs|] == cs && (cs + [c])[..|cs| + 1] == cs + [c];
  }

  lemma NothingDenoted()
    ensures Denotes([]) == map[]
  {
  }

  /** No character of the file is lost between two chunks. */
  lemma {:induction false} ChunksCover(s: string)
    ensures Flatten(Chunks(s)) == s
    decreases |s|
  {
    hide Chunk;
    if s != "" {
      var c := Chunk(s);
      ChunksCover(s[|c|..]);
      assert ([c] + Chunks(s[|c|..]))[1..] == Chunks(s[|c|..]);
      assert s == c + s[|c|..];
    }
  }

  ghost function Flatten(ss: seq<string>): string { if ss == [] then "" else ss[0] + Flatten(ss[1..]) }
}
