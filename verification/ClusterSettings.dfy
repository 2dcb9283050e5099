/** Cluster settings: a header followed by node settings, each introduced by a 0x1E character. */
module ClusterSettings {
  import opened Text
  import opened Sequences
  import opened SshInfo
  import opened ConnectionSettings

  const MAGIC := 0x1E as char

  datatype Cluster = Cluster(path: string, msinterval: nat, nodes: seq<Settings>)

  function PrintNodes(nodes: seq<Settings>, env: Env): string {
    if nodes == [] then "" else [0x1E as char] + PrintSettings(nodes[0], env) + PrintNodes(nodes[1..], env)
  }

  /** IClusterSettingsBase::ToString */
  function PrintCluster(v: Cluster, env: Env): string {
    PrintHeader(REDIS, v.path, v.msinterval) + "," + PrintNodes(v.nodes, env)
  }

  // ----- the parser as a function -----

  function NodeOf(text: string, env: Env): seq<Settings> {
    match ParseSettings(text, env)
    case None => []
    case Some(v) => [v]
  }

  /** The inner loop: a node ends at a 0x1E or at the last character, which is dropped in either case. */
  function Scan(serText: string, text: string, env: Env): seq<Settings>
    decreases |text|
  {
    if text == "" then []
    else if text[0] == MAGIC || |text| == 1 then NodeOf(serText, env) + Scan("", text[1..], env)
    else Scan(serText + [text[0]], text[1..], env)
  }

  function Tail(s: string): string { if s == "" then "" else s[1..] }

  /** The outer loop: only Redis has clusters. */
  function ContinueCluster(v: Option<Cluster>, commas: nat, text: string, env: Env): Option<Cluster>
    requires commas == 0 <==> v.None?
    decreases |text|
  {
    var c := IndexOf(text, ',');
    if c >= |text| then v
    else
      var el, rest := text[..c], text[c + 1..];
      if commas == 0 then
        if TypeOf(el) == Some(REDIS) && REDIS in env.built then ContinueCluster(Some(Cluster("", 0, [])), 1, rest, env)
        else None
      else if commas == 1 then ContinueCluster(Some(v.value.(path := el)), 2, rest, env)
      else Some(v.value.(msinterval := ParseNat(el), nodes := v.value.nodes + Scan("", Tail(rest), env)))
  }

  function ParseCluster(text: string, env: Env): Option<Cluster> { ContinueCluster(None, 0, text, env) }

  // ----- the object and the factory -----

  class ClusterConnection {
    var path: string
    var msinterval: nat
    var nodes: seq<Connection>

    ghost function Value(): Cluster
      reads this, nodes
    {
      Cluster(path, msinterval, Values(nodes))
    }

    constructor ()
      ensures Value() == Cluster("", 0, []) && nodes == []
    {
      path, msinterval, nodes := "", 0, [];
    }

    method SetPath(name: string)
      modifies this`path
      ensures path == name
    {
      path := name;
    }

    method SetLoggingMsTimeInterval(mstime: nat)
      modifies this`msinterval
      ensures msinterval == mstime
    {
      msinterval := mstime;
    }

    /** A null node is rejected. */
    method AddNode(node: Connection?)
      modifies this`nodes
      ensures nodes == if node == null then old(nodes) else old(nodes) + [node]
    {
      if node != null {
        nodes := nodes + [node];
      }
    }

    method ToString(env: Env) returns (text: string)
      ensures text == PrintCluster(Value(), env)
    {
      hide PrintHeader, PrintSettings;
      text := PrintHeader(REDIS, path, msinterval) + ",";
      var i := 0;
      assert nodes[0..] == nodes;
      while i < |nodes|
        invariant i <= |nodes|
        invariant text + PrintNodes(Values(nodes[i..]), env) == PrintCluster(Value(), env)
      {
        var serv := nodes[i].ToString(env);
        ValuesStep(nodes[i..]);
        assert nodes[i..][1..] == nodes[i + 1..];
        Assoc(text, [MAGIC] + serv, PrintNodes(Values(nodes[i + 1..]), env));
        text := text + ([MAGIC] + serv);
        i := i + 1;
      }
      assert text + "" == text;
    }
  }

  ghost function Values(nodes: seq<Connection>): (r: seq<Settings>)
    reads nodes
    ensures |r| == |nodes| && forall i :: 0 <= i < |nodes| ==> r[i] == nodes[i].Value()
  {
    if nodes == [] then [] else [nodes[0].Value()] + Values(nodes[1..])
  }

  lemma ValuesStep(nodes: seq<Connection>)
    requires nodes != []
    ensures Values(nodes)[0] == nodes[0].Value() && Values(nodes)[1..] == Values(nodes[1..])
  {
  }

  lemma ValuesAppend(nodes: seq<Connection>, node: Connection)
    ensures Values(nodes + [node]) == Values(nodes) + [node.Value()]
  {
  }

  function From(val: string, j: nat): string { if j < |val| then val[j..] else "" }

  /** The end of a node: parse its text and add it, unless the parser rejects it. */
  method FinishNode(result: ClusterConnection, serText: string, env: Env)
    modifies result`nodes
    ensures Values(result.nodes) == old(Values(result.nodes)) + NodeOf(serText, env)
  {
    hide ParseSettings, Values;
    var ser := CreateFromString(serText, env);
    ghost var before := Values(result.nodes);
    result.AddNode(ser);
    if ser != null {
      ValuesAppend(old(result.nodes), ser);
    } else {
      assert before + [] == before;
    }
  }

  /** The inner loop of ClusterConnectionSettingsFactory::CreateFromString. */
  method ReadNodes(result: ClusterConnection, val: string, start: nat, env: Env)
    modifies result`nodes
    ensures Values(result.nodes) == old(Values(result.nodes)) + Scan("", From(val, start), env)
  {
    hide *;
    ghost var all := Values(result.nodes) + Scan("", From(val, start), env);
    var serText := "";
    var j := start;
    while j < |val|
      invariant Values(result.nodes) + Scan(serText, From(val, j), env) == all
      decreases |val| - j
    {
      var ch := val[j];
      ghost var before := Values(result.nodes);
      ScanStep(serText, val, j, env);
      if ch == MAGIC || j == |val| - 1 {
        FinishNode(result, serText, env);
        Assoc(before, NodeOf(serText, env), Scan("", From(val, j + 1), env));
        serText := "";
      } else {
        serText := serText + [ch];
      }
      j := j + 1;
    }
    ScanNothing(Values(result.nodes), serText, val, j, env);
  }

  lemma ScanNothing(before: seq<Settings>, serText: string, val: string, j: nat, env: Env)
    requires j >= |val|
    ensures before + Scan(serText, From(val, j), env) == before
  {
  }

  lemma ScanStep(serText: string, val: string, j: nat, env: Env)
    requires j < |val|
    ensures Scan(serText, From(val, j), env) ==
            if val[j] == MAGIC || j == |val| - 1 then NodeOf(serText, env) + Scan("", From(val, j + 1), env)
            else Scan(serText + [val[j]], From(val, j + 1), env)
  {
    assert val[j..][1..] == val[j + 1..];
  }

  /** ClusterConnectionSettingsFactory::CreateFromString. */
  method CreateCluster(val: string, env: Env) returns (result: ClusterConnection?)
    ensures (if result == null then None else Some(result.Value())) == ParseCluster(val, env)
    ensures result == null || fresh(result)
  {
    hide ContinueCluster, Scan, Values, TypeOf, ParseNat;
    result := null;
    if val == "" {
      ClusterWithoutComma(None, 0, "", env);
      return;
    }
    var commaCount, elText, i := 0, "", 0;
    assert "" + val[0..] == val;
    while i < |val|
      invariant i <= |val| && ',' !in elText
      invariant 0 <= commaCount <= 2 && (commaCount == 0 <==> result == null)
      invariant result == null || (fresh(result) && result.nodes == [])
      invariant ContinueCluster(if result == null then None else Some(Cluster(result.path, result.msinterval, [])),
                                commaCount, elText + val[i..], env) == ParseCluster(val, env)
    {
      var ch := val[i];
      if ch == ',' {
        assert elText + val[i..] == elText + [','] + val[i + 1..];
        ClusterAtComma(if result == null then None else Some(Cluster(result.path, result.msinterval, [])),
                       commaCount, elText, val[i + 1..], env);
        if commaCount == 0 {
          if TypeOf(elText) != Some(REDIS) || REDIS !in env.built { return null; }
          result := new ClusterConnection();
        } else if commaCount == 1 {
          result.SetPath(elText);
        } else {
          result.SetLoggingMsTimeInterval(ParseNat(elText));
          assert From(val, i + 2) == Tail(val[i + 1..]);
          ValuesOfNothing();
          ReadNodes(result, val, i + 2, env);
          return;
        }
        commaCount := commaCount + 1;
        elText := "";
        assert "" + val[i + 1..] == val[i + 1..];
      } else {
        assert elText + val[i..] == (elText + [ch]) + val[i + 1..];
        elText := elText + [ch];
      }
      i := i + 1;
    }
    assert elText + val[i..] == elText;
    ValuesOfNothing();
    ClusterWithoutComma(if result == null then None else Some(Cluster(result.path, result.msinterval, [])),
                        commaCount, elText, env);
  }

  lemma ValuesOfNothing()
    ensures Values([]) == []
  {
  }

  lemma ClusterAtComma(v: Option<Cluster>, commas: nat, el: string, rest: string, env: Env)
    requires (commas == 0 <==> v.None?) && ',' !in el
    ensures ContinueCluster(v, commas, el + [','] + rest, env) ==
            if commas == 0 then
              if TypeOf(el) == Some(REDIS) && REDIS in env.built
              then ContinueCluster(Some(Cluster("", 0, [])), 1, rest, env) else None
            else if commas == 1 then ContinueCluster(Some(v.value.(path := el)), 2, rest, env)
            else Some(v.value.(msinterval := ParseNat(el), nodes := v.value.nodes + Scan("", Tail(rest), env)))
  {
    hide Scan, TypeOf, ParseNat;
    var text := el + [','] + rest;
    IndexOfFirst(el, ',', rest);
    assert text[..|el|] == el && text[|el| + 1..] == rest;
  }

  lemma ClusterWithoutComma(v: Option<Cluster>, commas: nat, el: string, env: Env)
    requires (commas == 0 <==> v.None?) && ',' !in el
    ensures ContinueCluster(v, commas, el, env) == v
  {
  }

  // ----- round trip -----

  /** A node of a cluster whose text the cluster parser can take apart again. */
  ghost predicate Printable(v: Settings, env: Env) {
    && v.conn == REDIS && Consistent(v, env)
    && ',' !in v.path && ',' !in v.line && Clean(v.ssh)
    && MAGIC !in PrintSettings(v, env)
  }

  function WithoutMethod(v: Settings, env: Env): Settings {
    v.(ssh := v.ssh.(currentMethod := env.ssh.currentMethod))
  }

  /** All nodes as they were, except that the last one has lost its SSH method. */
  function LastWithoutMethod(nodes: seq<Settings>, env: Env): seq<Settings> {
    if nodes == [] then []
    else nodes[..|nodes| - 1] + [WithoutMethod(nodes[|nodes| - 1], env)]
  }

  /** A text without 0x1E is collected up to the next 0x1E or to the last character. */
  lemma {:induction false} ScanNode(serText: string, a: string, c: char, rest: string, env: Env)
    requires MAGIC !in a && (c == MAGIC || rest == "")
    ensures Scan(serText, a + [c] + rest, env) == NodeOf(serText + a, env) + Scan("", rest, env)
    decreases |a|
  {
    hide NodeOf;
    var text := a + [c] + rest;
    if a == "" {
      assert text[1..] == rest && serText + a == serText;
    } else {
      assert text[0] == a[0] && text[1..] == a[1..] + [c] + rest;
      ScanNode(serText + [a[0]], a[1..], c, rest, env);
      assert serText + [a[0]] + a[1..] == serText + a;
    }
  }

  lemma {:induction false} NodesRoundTrip(nodes: seq<Settings>, env: Env)
    requires Inverse(env.codec) && Clean(env.ssh) && forall n :: n in nodes ==> Printable(n, env)
    ensures Scan("", Tail(PrintNodes(nodes, env)), env) == LastWithoutMethod(nodes, env)
    decreases |nodes|
  {
    hide Scan, PrintSettings, ParseSettings, LastWithoutMethod, Printable, Consistent;
    if nodes == [] {
      ScanNothing([], "", "", 0, env);
      NothingPrinted(env);
    } else if |nodes| == 1 {
      OneNode(nodes, env);
    } else {
      NodesRoundTrip(nodes[1..], env);
      FirstNode(nodes, env);
    }
  }

  lemma NothingPrinted(env: Env)
    ensures Tail(PrintNodes([], env)) == "" && LastWithoutMethod([], env) == []
  {
  }

  lemma OneNode(nodes: seq<Settings>, env: Env)
    requires |nodes| == 1 && Inverse(env.codec) && Printable(nodes[0], env)
    ensures Scan("", Tail(PrintNodes(nodes, env)), env) == LastWithoutMethod(nodes, env)
  {
    hide Scan, PrintSettings, ParseSettings;
    var text := PrintSettings(nodes[0], env);
    SshRoundTripWithoutLastChar(nodes[0], env);
    OnlyNode(text, env);
    assert PrintNodes(nodes[1..], env) == "";
    assert Tail(PrintNodes(nodes, env)) == text;
  }

  lemma FirstNode(nodes: seq<Settings>, env: Env)
    requires |nodes| > 1 && Inverse(env.codec) && Clean(env.ssh) && Printable(nodes[0], env)
    requires Scan("", Tail(PrintNodes(nodes[1..], env)), env) == LastWithoutMethod(nodes[1..], env)
    ensures Scan("", Tail(PrintNodes(nodes, env)), env) == LastWithoutMethod(nodes, env)
  {
    hide Scan, PrintSettings, ParseSettings, LastWithoutMethod;
    var text, more := PrintSettings(nodes[0], env), PrintNodes(nodes[1..], env);
    SshRoundTrip(nodes[0], env);
    assert more[0] == MAGIC && more == [MAGIC] + Tail(more);
    assert Tail(PrintNodes(nodes, env)) == text + [MAGIC] + Tail(more);
    ScanNode("", text, MAGIC, Tail(more), env);
    assert "" + text == text;
    LastOfRest(nodes, env);
  }

  lemma OnlyNode(text: string, env: Env)
    requires text != "" && MAGIC !in text
    ensures Scan("", text, env) == NodeOf(text[..|text| - 1], env)
  {
    var a := text[..|text| - 1];
    ScanNode("", a, text[|text| - 1], "", env);
    assert a + [text[|text| - 1]] + "" == text && "" + a == a;
    assert NodeOf(a, env) + [] == NodeOf(a, env);
  }

  lemma LastOfRest(nodes: seq<Settings>, env: Env)
    requires |nodes| > 1
    ensures [nodes[0]] + LastWithoutMethod(nodes[1..], env) == LastWithoutMethod(nodes, env)
  {
  }

  /** A cluster whose own path has no comma: the nodes are what is scanned in the rest of the text. */
  lemma ClusterHeader(v: Cluster, env: Env)
    requires ',' !in v.path && REDIS in env.built
    ensures PrintCluster(v, env)
         == PrintNat(Code(REDIS)) + "," + v.path + "," + PrintNat(v.msinterval) + "," + PrintNodes(v.nodes, env)
    ensures ParseCluster(PrintCluster(v, env), env)
         == Some(Cluster(v.path, v.msinterval, Scan("", Tail(PrintNodes(v.nodes, env)), env)))
  {
    hide ContinueCluster, PrintNat, Code, TypeOf, ParseNat, Scan, PrintNodes;
    HeaderHasNoComma(REDIS, v.msinterval);
    var a, b, tail := PrintNat(Code(REDIS)), PrintNat(v.msinterval), PrintNodes(v.nodes, env);
    var rest2 := b + [','] + tail;
    var rest1 := v.path + [','] + rest2;
    assert PrintCluster(v, env) == a + [','] + rest1;
    ClusterAtComma(None, 0, a, rest1, env);
    ClusterAtComma(Some(Cluster("", 0, [])), 1, v.path, rest2, env);
    ClusterAtComma(Some(Cluster(v.path, 0, [])), 2, b, tail, env);
    assert [] + Scan("", Tail(tail), env) == Scan("", Tail(tail), env);
  }

  /** One element: the parser goes on with the path in place, or is done with it. */
  lemma ClusterStep(v: Option<Cluster>, commas: nat, text: string, env: Env)
    requires commas == 0 <==> v.None?
    ensures var c, r := IndexOf(text, ','), ContinueCluster(v, commas, text, env);
            if c >= |text| then r == v
            else if commas == 0 then
              r == None || r == ContinueCluster(Some(Cluster("", 0, [])), 1, text[c + 1..], env)
            else if commas == 1 then
              r == ContinueCluster(Some(v.value.(path := text[..c])), 2, text[c + 1..], env)
            else r.Some? && r.value.path == v.value.path
  {
  }

  lemma {:induction false} ParsedClusterPath(v: Option<Cluster>, commas: nat, text: string, env: Env)
    requires (commas == 0 <==> v.None?) && (v.Some? ==> ',' !in v.value.path)
    ensures var r := ContinueCluster(v, commas, text, env); r.Some? ==> ',' !in r.value.path
    decreases |text|
  {
    ClusterStep(v, commas, text, env);
    hide Scan, TypeOf, ParseNat, ContinueCluster;
    var c := IndexOf(text, ',');
    if c < |text| {
      var el, rest := text[..c], text[c + 1..];
      if commas == 0 {
        ParsedClusterPath(Some(Cluster("", 0, [])), 1, rest, env);
      } else if commas == 1 {
        ParsedClusterPath(Some(v.value.(path := el)), 2, rest, env);
      }
    }
  }

  // ----- what the parser can produce at all -----

  ghost predicate UnmarkedSsh(s: SSHInfo, codec: HostCodec) {
    && MAGIC !in codec.print_(s.host) && MAGIC !in s.userName && MAGIC !in s.password
    && MAGIC !in s.publicKey && MAGIC !in s.privateKey && MAGIC !in s.passphrase
  }

  /** Library conversions do not put a 0x1E into text that has none. */
  ghost predicate KeepsUnmarked(env: Env) {
    && UnmarkedSsh(env.ssh, env.codec)
    && (forall t :: MAGIC !in env.defaultConfig(t))
    && (forall t, s: string :: MAGIC !in s ==> MAGIC !in env.config(t, s))
    && (forall s: string :: MAGIC !in s ==> MAGIC !in env.codec.print_(env.codec.parse(s)))
  }

  /** Settings as they come out of a text without 0x1E. */
  ghost predicate Restorable(v: Settings, env: Env) {
    ',' !in v.path && MAGIC !in v.path && MAGIC !in v.line && Clean(v.ssh) && UnmarkedSsh(v.ssh, env.codec)
  }

  lemma {:induction false} AssignKeepsUnmarked(s: SSHInfo, lines: seq<string>, env: Env)
    requires KeepsUnmarked(env) && UnmarkedSsh(s, env.codec) && forall l :: l in lines ==> MAGIC !in l
    ensures UnmarkedSsh(AssignAll(s, lines, env.codec), env.codec)
    decreases |lines|
  {
    if lines != [] {
      var line := lines[|lines| - 1];
      AssignKeepsUnmarked(s, lines[..|lines| - 1], env);
      assert line in lines;
      var d := IndexOf(line, ':');
      if d < |line| {
        var value := line[d + 1..];
        assert MAGIC !in value;
      }
    }
  }

  lemma ParsedSshIsRestorable(text: string, env: Env)
    requires KeepsUnmarked(env) && Clean(env.ssh) && MAGIC !in text
    ensures var s := SshInfo.Parse(text, env.ssh, env.codec); Clean(s) && UnmarkedSsh(s, env.codec)
  {
    hide Lines, KeepsUnmarked, UnmarkedSsh, Clean, AssignAll;
    assert UnmarkedSsh(env.ssh, env.codec) by { DefaultIsUnmarked(env); }
    LinesAreClean(text);
    LinesLack(text, MAGIC);
    AssignKeepsClean(env.ssh, Lines(text), env.codec);
    AssignKeepsUnmarked(env.ssh, Lines(text), env);
  }

  lemma DefaultIsUnmarked(env: Env)
    requires KeepsUnmarked(env)
    ensures UnmarkedSsh(env.ssh, env.codec)
  {
  }

  lemma CommaKeepsRestorable(v: Option<Settings>, commas: nat, el: string, rest: string, env: Env)
    requires (commas == 0 <==> v.None?) && KeepsUnmarked(env) && Clean(env.ssh)
    requires ',' !in el && MAGIC !in el && MAGIC !in rest && (v.Some? ==> Restorable(v.value, env))
    ensures match AtComma(v, commas, el, rest, env)
            case Stop(r) => r.Some? ==> Restorable(r.value, env)
            case Go(w) => Restorable(w, env)
  {
    hide SshInfo.Parse, TypeOf, ParseNat, Clean, UnmarkedSsh;
    ParsedSshIsRestorable(rest, env);
  }

  lemma {:induction false} ParsedIsRestorable(v: Option<Settings>, commas: nat, text: string, env: Env)
    requires (commas == 0 <==> v.None?) && KeepsUnmarked(env) && Clean(env.ssh)
    requires MAGIC !in text && (v.Some? ==> Restorable(v.value, env))
    ensures var r := Continue(v, commas, text, env); r.Some? ==> Restorable(r.value, env)
    decreases |text|
  {
    hide Restorable, KeepsUnmarked, Clean, AtComma;
    var c := IndexOf(text, ',');
    if c < |text| {
      var el, rest := text[..c], text[c + 1..];
      CommaKeepsRestorable(v, commas, el, rest, env);
      match AtComma(v, commas, el, rest, env)
      case Stop(result) =>
      case Go(w) => ParsedIsRestorable(Some(w), commas + 1, rest, env);
    }
  }

  lemma {:induction false} ScannedAreRestorable(serText: string, text: string, env: Env)
    requires MAGIC !in serText && KeepsUnmarked(env) && Clean(env.ssh)
    ensures forall n :: n in Scan(serText, text, env) ==> Restorable(n, env)
    decreases |text|
  {
    hide Restorable, KeepsUnmarked, Clean;
    if text == "" {
    } else if text[0] == MAGIC || |text| == 1 {
      NodeIsRestorable(serText, env);
      ScannedAreRestorable("", text[1..], env);
    } else {
      ScannedAreRestorable(serText + [text[0]], text[1..], env);
    }
  }

  lemma NodeIsRestorable(serText: string, env: Env)
    requires MAGIC !in serText && KeepsUnmarked(env) && Clean(env.ssh)
    ensures forall n :: n in NodeOf(serText, env) ==> Restorable(n, env)
  {
    hide Restorable, KeepsUnmarked, Clean, Continue;
    ParsedIsRestorable(None, 0, serText, env);
  }

  lemma RestorableIsPrintable(v: Settings, env: Env)
    requires v.conn == REDIS && Consistent(v, env) && ',' !in v.line && Restorable(v, env)
    ensures Printable(v, env)
  {
    hide PrintNat, Code;
    NumbersAreUnmarked(v.msinterval);
    NumbersAreUnmarked(Code(v.conn));
    assert MAGIC !in PrintHeader(v.conn, v.path, v.msinterval);
    assert MAGIC !in SshInfo.Print(v.ssh, env.codec);
  }

  lemma NumbersAreUnmarked(n: nat)
    ensures MAGIC !in PrintNat(n)
  {
  }

  /** Printable nodes and a path without comma are enough: everything comes back, except for the SSH
      method of the last node. */
  lemma PrintableComesBack(v: Cluster, env: Env)
    requires Inverse(env.codec) && Clean(env.ssh) && REDIS in env.built
    requires ',' !in v.path && forall n :: n in v.nodes ==> Printable(n, env)
    ensures ParseCluster(PrintCluster(v, env), env) == Some(v.(nodes := LastWithoutMethod(v.nodes, env)))
  {
    hide ParseCluster, PrintCluster, Printable, Scan, PrintNodes, LastWithoutMethod;
    ClusterHeader(v, env);
    NodesRoundTrip(v.nodes, env);
  }

  /** They are also necessary, for nodes whose command lines have no comma and are in printed form. */
  lemma ClusterRoundTrip(v: Cluster, env: Env)
    requires Inverse(env.codec) && Clean(env.ssh) && REDIS in env.built && KeepsUnmarked(env)
    requires forall n :: n in v.nodes ==> n.conn == REDIS && Consistent(n, env) && ',' !in n.line
    ensures ParseCluster(PrintCluster(v, env), env) == Some(v.(nodes := LastWithoutMethod(v.nodes, env)))
       <==> ',' !in v.path && forall n :: n in v.nodes ==> Printable(n, env)
  {
    hide PrintCluster, ContinueCluster, Printable, Scan, PrintNodes, LastWithoutMethod, KeepsUnmarked, Consistent;
    var last := LastWithoutMethod(v.nodes, env);
    if ParseCluster(PrintCluster(v, env), env) == Some(v.(nodes := last)) {
      ParsedClusterPath(None, 0, PrintCluster(v, env), env);
      ClusterHeader(v, env);
      ScannedAreRestorable("", Tail(PrintNodes(v.nodes, env)), env);
      forall n | n in v.nodes ensures Printable(n, env) {
        RestorableWithMethod(v.nodes, n, env);
        RestorableIsPrintable(n, env);
      }
    } else if ',' !in v.path && forall n :: n in v.nodes ==> Printable(n, env) {
      PrintableComesBack(v, env);
    }
  }

  lemma RestorableWithMethod(nodes: seq<Settings>, n: Settings, env: Env)
    requires n in nodes && forall m :: m in LastWithoutMethod(nodes, env) ==> Restorable(m, env)
    ensures Restorable(n, env)
  {
    var i :| 0 <= i < |nodes| && nodes[i] == n;
    assert LastWithoutMethod(nodes, env)[i] in LastWithoutMethod(nodes, env);
  }

  /** Under operator== of SSHInfo the restored nodes are the printed ones. */
  lemma SameUpToMethod(nodes: seq<Settings>, env: Env)
    ensures var nodes' := LastWithoutMethod(nodes, env);
            && |nodes'| == |nodes|
            && (forall i :: 0 <= i < |nodes| - 1 ==> nodes'[i] == nodes[i])
            && (forall i :: 0 <= i < |nodes| ==>
                  Same(nodes'[i].ssh, nodes[i].ssh) && nodes'[i].(ssh := nodes[i].ssh) == nodes[i])
  {
  }
}
