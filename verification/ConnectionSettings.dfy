/** Connection settings: the comma-separated printed form and the factory that parses it. */
module ConnectionSettings {
  import opened Text
  import opened SshInfo

  datatype ConnType = REDIS | MEMCACHED | SSDB | LEVELDB | ROCKSDB | UNQLITE | LMDB | UPSCALEDB

  function Code(t: ConnType): nat {
    match t
    case REDIS => 0 case MEMCACHED => 1 case SSDB => 2 case LEVELDB => 3
    case ROCKSDB => 4 case UNQLITE => 5 case LMDB => 6 case UPSCALEDB => 7
  }

  /** static_cast<connectionTypes>(elText[0] - 48): only the first character counts. */
  function TypeOf(text: string): Option<ConnType> {
    if text == "" then None
    else match text[0]
      case '0' => Some(REDIS) case '1' => Some(MEMCACHED) case '2' => Some(SSDB) case '3' => Some(LEVELDB)
      case '4' => Some(ROCKSDB) case '5' => Some(UNQLITE) case '6' => Some(LMDB) case '7' => Some(UPSCALEDB)
      case _ => None
  }

  predicate IsRemote(t: ConnType) { t == REDIS || t == MEMCACHED || t == SSDB }

  /** The types whose settings are an IConnectionSettingsRemoteSSH. */
  predicate HasSsh(t: ConnType) { t == REDIS }

  /** What lies outside this component: the build, the configuration of each database, which is
      represented by the command line it prints, the path checksum and the default SSHInfo. */
  datatype Env = Env(
    built: set<ConnType>,
    config: (ConnType, string) -> string,
    defaultConfig: ConnType -> string,
    crc64: string -> string,
    codec: HostCodec,
    ssh: SSHInfo)

  /** The state of a settings object. */
  datatype Settings = Settings(conn: ConnType, path: string, msinterval: nat, line: string, hash: string, ssh: SSHInfo)

  function New(t: ConnType, env: Env): Settings {
    Settings(t, "", 0, env.defaultConfig(t), env.crc64(""), env.ssh)
  }

  /** IConnectionSettings::ToString */
  function PrintHeader(t: ConnType, path: string, msinterval: nat): string {
    PrintNat(Code(t)) + "," + path + "," + PrintNat(msinterval)
  }

  /** ToString, with the SSH part where there is one. */
  function PrintSettings(v: Settings, env: Env): string {
    PrintHeader(v.conn, v.path, v.msinterval) + "," + v.line
    + (if HasSsh(v.conn) then "," + SshInfo.Print(v.ssh, env.codec) else "")
  }

  class Connection {
    const conn: ConnType
    var path: string
    var msinterval: nat
    var line: string
    var hash: string
    var ssh: SSHInfo

    ghost function Value(): Settings
      reads this
    {
      Settings(conn, path, msinterval, line, hash, ssh)
    }

    constructor (t: ConnType, env: Env)
      ensures Value() == New(t, env)
    {
      conn, path, msinterval := t, "", 0;
      line, hash, ssh := env.defaultConfig(t), env.crc64(""), env.ssh;
    }

    method SetConnectionPathAndUpdateHash(name: string, env: Env)
      modifies this
      ensures Value() == old(Value()).(path := name, hash := env.crc64(name))
    {
      path := name;
      hash := env.crc64(path);
    }

    method SetLoggingMsTimeInterval(mstime: nat)
      modifies this
      ensures Value() == old(Value()).(msinterval := mstime)
    {
      msinterval := mstime;
    }

    method SetCommandLine(text: string, env: Env)
      modifies this
      ensures Value() == old(Value()).(line := env.config(conn, text))
    {
      line := env.config(conn, text);
    }

    method SetSSHInfo(info: SSHInfo)
      modifies this
      ensures Value() == old(Value()).(ssh := info)
    {
      ssh := info;
    }

    method ToString(env: Env) returns (text: string)
      ensures text == PrintSettings(Value(), env)
    {
      text := PrintHeader(conn, path, msinterval) + "," + line;
      if HasSsh(conn) {
        text := text + "," + SshInfo.Print(ssh, env.codec);
      } else {
        text := text + "";
      }
    }
  }

  // ----- the parser -----

  datatype Next = Stop(result: Option<Settings>) | Go(settings: Settings)

  /** The branches taken at a comma: `el` is the element before it, `rest` everything after it. */
  function AtComma(v: Option<Settings>, commas: nat, el: string, rest: string, env: Env): Next
    requires commas == 0 <==> v.None?
  {
    if commas == 0 then
      var t := TypeOf(el);
      if t.Some? && t.value in env.built then Go(New(t.value, env)) else Stop(None)
    else if commas == 1 then
      Go(v.value.(path := el, hash := env.crc64(el)))
    else if commas == 2 then
      var w := v.value.(msinterval := ParseNat(el));
      if IsRemote(w.conn) then Go(w) else Stop(Some(w.(line := env.config(w.conn, rest))))
    else
      var w := v.value.(line := env.config(v.value.conn, el));
      Stop(Some(if HasSsh(w.conn) then w.(ssh := SshInfo.Parse(rest, env.ssh, env.codec)) else w))
  }

  /** What CreateFromString still makes of `text` after `commas` commas, when the object is `v`. */
  function Continue(v: Option<Settings>, commas: nat, text: string, env: Env): Option<Settings>
    requires commas == 0 <==> v.None?
    decreases |text|
  {
    var c := IndexOf(text, ',');
    if c >= |text| then v
    else
      match AtComma(v, commas, text[..c], text[c + 1..], env)
      case Stop(result) => result
      case Go(w) => Continue(Some(w), commas + 1, text[c + 1..], env)
  }

  lemma ContinueAtComma(v: Option<Settings>, commas: nat, el: string, rest: string, env: Env)
    requires (commas == 0 <==> v.None?) && ',' !in el
    ensures Continue(v, commas, el + [','] + rest, env) ==
            match AtComma(v, commas, el, rest, env)
            case Stop(result) => result
            case Go(w) => Continue(Some(w), commas + 1, rest, env)
  {
    hide AtComma;
    var text := el + [','] + rest;
    IndexOfFirst(el, ',', rest);
    assert text[..|el|] == el && text[|el| + 1..] == rest;
  }

  lemma ContinueWithoutComma(v: Option<Settings>, commas: nat, el: string, env: Env)
    requires (commas == 0 <==> v.None?) && ',' !in el
    ensures Continue(v, commas, el, env) == v
  {
  }

  function ParseSettings(text: string, env: Env): Option<Settings> { Continue(None, 0, text, env) }

  ghost function ValueOf(c: Connection?): Option<Settings>
    reads if c == null then {} else {c}
  {
    if c == null then None else Some(c.Value())
  }

  /** The body of the loop of CreateFromString at a comma. */
  method Comma(result0: Connection?, commaCount: nat, elText: string, rest: string, env: Env)
    returns (result: Connection?, done: bool)
    requires (commaCount == 0 <==> result0 == null) && commaCount <= 3
    modifies if result0 == null then {} else {result0}
    ensures match AtComma(old(ValueOf(result0)), commaCount, elText, rest, env)
            case Stop(v) => done && ValueOf(result) == v
            case Go(w) => !done && ValueOf(result) == Some(w) && commaCount < 3
    ensures result == null || result == result0 || fresh(result)
  {
    result, done := result0, false;
    if commaCount == 0 {
      var t := TypeOf(elText);
      if t.None? || t.value !in env.built { return null, true; }
      result := new Connection(t.value, env);
    } else if commaCount == 1 {
      result.SetConnectionPathAndUpdateHash(elText, env);
    } else if commaCount == 2 {
      result.SetLoggingMsTimeInterval(ParseNat(elText));
      if !IsRemote(result.conn) {
        result.SetCommandLine(rest, env);
        done := true;
      }
    } else {
      result.SetCommandLine(elText, env);
      if HasSsh(result.conn) {
        var sinf := FromText(rest, env.ssh, env.codec);
        result.SetSSHInfo(sinf);
      }
      done := true;
    }
  }

  /** ConnectionSettingsFactory::CreateFromString: one pass over the characters. */
  method CreateFromString(val: string, env: Env) returns (result: Connection?)
    ensures ValueOf(result) == ParseSettings(val, env)
    ensures result == null || fresh(result)
  {
    hide Continue, AtComma;
    result := null;
    if val == "" {
      ContinueWithoutComma(None, 0, "", env);
      return;
    }
    var commaCount, elText, i, done := 0, "", 0, false;
    assert "" + val[0..] == val;
    while i < |val|
      invariant i <= |val| && ',' !in elText
      invariant 0 <= commaCount <= 3 && (commaCount == 0 <==> result == null)
      invariant result == null || fresh(result)
      invariant Continue(ValueOf(result), commaCount, elText + val[i..], env) == ParseSettings(val, env)
    {
      var ch := val[i];
      if ch == ',' {
        assert elText + val[i..] == elText + [','] + val[i + 1..];
        ContinueAtComma(ValueOf(result), commaCount, elText, val[i + 1..], env);
        result, done := Comma(result, commaCount, elText, val[i + 1..], env);
        if done { return; }
        commaCount := commaCount + 1;
        elText := "";
        assert "" + val[i + 1..] == val[i + 1..];
      } else {
        assert elText + val[i..] == (elText + [ch]) + val[i + 1..];
        elText := elText + [ch];
      }
      i := i + 1;
    }
    assert elText + val[i..] == elText;
    ContinueWithoutComma(ValueOf(result), commaCount, elText, env);
  }

  // ----- round trips -----

  /** What the setters keep: the command line is in printed form and the checksum belongs to the path. */
  ghost predicate Consistent(v: Settings, env: Env) {
    && v.conn in env.built
    && env.config(v.conn, v.line) == v.line
    && v.hash == env.crc64(v.path)
    && (v.conn != REDIS ==> v.ssh == env.ssh)
  }

  lemma HeaderHasNoComma(t: ConnType, m: nat)
    ensures ',' !in PrintNat(Code(t)) && ',' !in PrintNat(m)
    ensures TypeOf(PrintNat(Code(t))) == Some(t)
    ensures ParseNat(PrintNat(m)) == m
  {
    ParsePrintNat(m);
    assert PrintNat(Code(t)) == [Digit(Code(t))];
  }

  /** The first three elements are read back; `tail` is what the parser sees after them. */
  lemma HeaderRoundTrip(t: ConnType, path: string, m: nat, tail: string, env: Env)
    requires t in env.built && ',' !in path
    ensures PrintHeader(t, path, m) == PrintNat(Code(t)) + "," + path + "," + PrintNat(m)
    ensures ParseSettings(PrintNat(Code(t)) + "," + path + "," + PrintNat(m) + "," + tail, env) ==
            var w := New(t, env).(path := path, hash := env.crc64(path), msinterval := m);
            if IsRemote(t) then Continue(Some(w), 3, tail, env) else Some(w.(line := env.config(t, tail)))
  {
    hide Continue, PrintNat, Code, TypeOf, ParseNat;
    HeaderHasNoComma(t, m);
    var a, b := PrintNat(Code(t)), PrintNat(m);
    var rest2 := b + [','] + tail;
    var rest1 := path + [','] + rest2;
    var w1 := New(t, env);
    var w2 := w1.(path := path, hash := env.crc64(path));
    assert PrintHeader(t, path, m) + "," + tail == a + [','] + rest1;
    ContinueAtComma(None, 0, a, rest1, env);
    ContinueAtComma(Some(w1), 1, path, rest2, env);
    ContinueAtComma(Some(w2), 2, b, tail, env);
  }

  /** Whatever stands in the place of the SSH text is given to the SSH parser. */
  lemma SshPart(v: Settings, ssh: string, env: Env)
    requires v.conn == REDIS && Consistent(v, env) && ',' !in v.line && ',' !in v.path
    ensures ParseSettings(PrintHeader(v.conn, v.path, v.msinterval) + "," + (v.line + [','] + ssh), env)
         == Some(v.(ssh := SshInfo.Parse(ssh, env.ssh, env.codec)))
  {
    hide SshInfo.Parse, Continue, PrintHeader;
    HeaderRoundTrip(v.conn, v.path, v.msinterval, v.line + [','] + ssh, env);
    var w := New(v.conn, env).(path := v.path, hash := env.crc64(v.path), msinterval := v.msinterval);
    ContinueAtComma(Some(w), 3, v.line, ssh, env);
  }

  /** A comma in a Redis command line ends it for the parser, and what follows it is read as SSH data:
      the prefix has to stand for the whole line, and the remainder must not spoil the address. */
  ghost predicate LineSurvives(v: Settings, env: Env) {
    var n := IndexOf(v.line, ',');
    n < |v.line| ==>
      && env.config(v.conn, v.line[..n]) == v.line
      && var host := Line("host", env.codec.print_(v.ssh.host)) + CRLF;
         SshInfo.Parse(v.line[n + 1..] + "," + host, env.ssh, env.codec).host == v.ssh.host
  }

  /** Settings with an SSH part: a comma in the path or a CRLF in an SSH field gets in the way, and so
      does a comma in the command line, up to the rare exceptions above; commas in the SSH fields do not. */
  lemma SshRoundTrip(v: Settings, env: Env)
    requires v.conn == REDIS && Consistent(v, env) && Inverse(env.codec) && Clean(env.ssh)
    ensures ParseSettings(PrintSettings(v, env), env) == Some(v)
       <==> ',' !in v.path && Clean(v.ssh) && LineSurvives(v, env)
  {
    hide PrintSettings, ParseSettings, Consistent, Clean, Inverse;
    var n := IndexOf(v.line, ',');
    if ',' in v.path {
      CommaInPath(v, env);
    } else if n < |v.line| {
      hide LineSurvives;
      SshAfterComma(v, v.line[..n], v.line[n + 1..], env);
    } else {
      SshWithoutComma(v, env);
    }
  }

  lemma CommaInPath(v: Settings, env: Env)
    requires ',' in v.path
    ensures ParseSettings(PrintSettings(v, env), env) != Some(v)
  {
    hide PrintSettings, Continue;
    ParsedPathHasNoComma(None, 0, PrintSettings(v, env), env);
  }

  lemma SshWithoutComma(v: Settings, env: Env)
    requires v.conn == REDIS && Consistent(v, env) && ',' !in v.path && ',' !in v.line
    requires Inverse(env.codec) && Clean(env.ssh)
    ensures ParseSettings(PrintSettings(v, env), env) == Some(v) <==> Clean(v.ssh)
  {
    hide SshInfo.Print, SshInfo.Parse, PrintHeader, ParseSettings, Clean;
    var ssh, header := SshInfo.Print(v.ssh, env.codec), PrintHeader(v.conn, v.path, v.msinterval);
    assert header + "," + v.line + ("," + ssh) == header + "," + (v.line + [','] + ssh);
    SshInfo.RoundTrip(v.ssh, env.ssh, env.codec);
    SshPart(v, ssh, env);
  }

  lemma SshAfterComma(v: Settings, el: string, rest: string, env: Env)
    requires v.conn == REDIS && Consistent(v, env) && Inverse(env.codec) && Clean(env.ssh) && ',' !in v.path
    requires ',' !in el && v.line == el + [','] + rest
    ensures ParseSettings(PrintSettings(v, env), env) == Some(v) <==> Clean(v.ssh) && LineSurvives(v, env)
  {
    IndexOfFirst(el, ',', rest);
    assert v.line[..|el|] == el && v.line[|el| + 1..] == rest;
    hide SshInfo.Print, SshInfo.Parse, PrintHeader, Continue, Line;
    var ssh, header := SshInfo.Print(v.ssh, env.codec), PrintHeader(v.conn, v.path, v.msinterval);
    var tail := rest + "," + ssh;
    var host := Line("host", env.codec.print_(v.ssh.host));
    assert PrintSettings(v, env) == header + "," + (el + [','] + tail);
    HeaderRoundTrip(v.conn, v.path, v.msinterval, el + [','] + tail, env);
    var w := New(v.conn, env).(path := v.path, hash := env.crc64(v.path), msinterval := v.msinterval);
    ContinueAtComma(Some(w), 3, el, tail, env);
    SshInfo.RoundTripAfter(rest + ",", v.ssh, env.ssh, env.codec);
    assert rest + "," + (host + CRLF) == rest + "," + host + CRLF;
  }

  /** The same settings without the last character: everything but the SSH method comes back. */
  lemma SshRoundTripWithoutLastChar(v: Settings, env: Env)
    requires v.conn == REDIS && Consistent(v, env) && ',' !in v.line && ',' !in v.path && Clean(v.ssh)
    requires Inverse(env.codec)
    ensures var text := PrintSettings(v, env);
            text != "" &&
            ParseSettings(text[..|text| - 1], env) == Some(v.(ssh := v.ssh.(currentMethod := env.ssh.currentMethod)))
  {
    hide SshInfo.Print, SshInfo.Parse, PrintHeader, ParseSettings;
    var ssh, header := SshInfo.Print(v.ssh, env.codec), PrintHeader(v.conn, v.path, v.msinterval);
    RoundTripWithoutLastChar(v.ssh, env.ssh, env.codec);
    JoinWithoutLast(header, v.line, ssh);
    SshPart(v, ssh[..|ssh| - 1], env);
  }

  lemma JoinWithoutLast(header: string, line: string, ssh: string)
    requires ssh != ""
    ensures var text := header + "," + line + ("," + ssh);
            text != "" && text[..|text| - 1] == header + "," + (line + [','] + ssh[..|ssh| - 1])
  {
  }

  /** Settings of local stores: the command line may contain commas. */
  lemma LocalRoundTrip(v: Settings, env: Env)
    requires v.conn != REDIS && v.conn != MEMCACHED && v.conn != SSDB && Consistent(v, env)
    ensures ParseSettings(PrintSettings(v, env), env) == Some(v) <==> ',' !in v.path
  {
    var text, header := PrintSettings(v, env), PrintHeader(v.conn, v.path, v.msinterval);
    assert text == header + "," + v.line;
    if ',' !in v.path {
      HeaderRoundTrip(v.conn, v.path, v.msinterval, v.line, env);
    } else {
      CommaInPath(v, env);
    }
  }

  /** Remote settings without SSH print no comma after the command line. A line without a comma is
      therefore never read back, and of a line with one only the part before it: the round trip works
      exactly when that happens to yield the line again. */
  lemma RemoteRoundTrip(v: Settings, env: Env)
    requires (v.conn == MEMCACHED || v.conn == SSDB) && Consistent(v, env)
    ensures ParseSettings(PrintSettings(v, env), env) == Some(v)
       <==> ',' !in v.path &&
            v.line == if ',' in v.line then env.config(v.conn, v.line[..IndexOf(v.line, ',')])
                      else env.defaultConfig(v.conn)
  {
    var text, header := PrintSettings(v, env), PrintHeader(v.conn, v.path, v.msinterval);
    assert text == header + "," + v.line;
    if ',' in v.path {
      CommaInPath(v, env);
    } else {
      HeaderRoundTrip(v.conn, v.path, v.msinterval, v.line, env);
      var w := New(v.conn, env).(path := v.path, hash := env.crc64(v.path), msinterval := v.msinterval);
      if ',' in v.line {
        var n := IndexOf(v.line, ',');
        hide Continue;
        assert v.line == v.line[..n] + [','] + v.line[n + 1..];
        ContinueAtComma(Some(w), 3, v.line[..n], v.line[n + 1..], env);
      } else {
        ContinueWithoutComma(Some(w), 3, v.line, env);
      }
    }
  }

  /** Printing a command line and reading it again changes nothing, and the default one is in that form. */
  ghost predicate Settles(env: Env) {
    && (forall t, line: string :: env.config(t, env.config(t, line)) == env.config(t, line))
    && (forall t :: env.config(t, env.defaultConfig(t)) == env.defaultConfig(t))
  }

  ghost predicate ConsistentIfAny(v: Option<Settings>, env: Env) { v.Some? ==> Consistent(v.value, env) }

  /** Whatever the text, the settings that come out of the parser are as the setters keep them. */
  lemma {:induction false} ParsedIsConsistent(v: Option<Settings>, commas: nat, text: string, env: Env)
    requires (commas == 0 <==> v.None?) && Settles(env) && ConsistentIfAny(v, env)
    ensures ConsistentIfAny(Continue(v, commas, text, env), env)
    decreases |text|
  {
    var c := IndexOf(text, ',');
    if c < |text| {
      hide Consistent;
      CommaKeepsConsistent(v, commas, text[..c], text[c + 1..], env);
      match AtComma(v, commas, text[..c], text[c + 1..], env)
      case Stop(result) =>
      case Go(w) => ParsedIsConsistent(Some(w), commas + 1, text[c + 1..], env);
    }
  }

  lemma CommaKeepsConsistent(v: Option<Settings>, commas: nat, el: string, rest: string, env: Env)
    requires (commas == 0 <==> v.None?) && Settles(env) && ConsistentIfAny(v, env)
    ensures match AtComma(v, commas, el, rest, env)
            case Stop(result) => ConsistentIfAny(result, env)
            case Go(w) => Consistent(w, env)
  {
    hide TypeOf, ParseNat, SshInfo.Parse;
  }

  /** A type is read from the first character alone, its digit. */
  lemma TypeIsFirstDigit(t: ConnType, text: string)
    ensures TypeOf(text) == Some(t) <==> text != "" && text[0] == PrintNat(Code(t))[0]
    ensures |PrintNat(Code(t))| == 1
    ensures [REDIS, MEMCACHED, SSDB, LEVELDB, ROCKSDB, UNQLITE, LMDB, UPSCALEDB][Code(t)] == t
  {
  }

  /** SSH data comes out of the parser for Redis alone; the settings of every other type have the default. */
  lemma {:induction false} OnlyRedisHasSsh(v: Option<Settings>, commas: nat, text: string, env: Env)
    requires (commas == 0 <==> v.None?) && (v.Some? && v.value.conn != REDIS ==> v.value.ssh == env.ssh)
    ensures var r := Continue(v, commas, text, env);
            r.Some? && r.value.conn != REDIS ==> r.value.ssh == env.ssh
    decreases |text|
  {
    var c := IndexOf(text, ',');
    if c < |text| {
      match AtComma(v, commas, text[..c], text[c + 1..], env)
      case Stop(result) =>
      case Go(w) => OnlyRedisHasSsh(Some(w), commas + 1, text[c + 1..], env);
    }
  }

  /** Whatever the text, the path that comes out of the parser has no comma. */
  lemma {:induction false} ParsedPathHasNoComma(v: Option<Settings>, commas: nat, text: string, env: Env)
    requires (commas == 0 <==> v.None?) && (v.Some? ==> ',' !in v.value.path)
    ensures var r := Continue(v, commas, text, env); r.Some? ==> ',' !in r.value.path
    decreases |text|
  {
    var c := IndexOf(text, ',');
    if c < |text| {
      match AtComma(v, commas, text[..c], text[c + 1..], env)
      case Stop(result) =>
      case Go(w) => ParsedPathHasNoComma(Some(w), commas + 1, text[c + 1..], env);
    }
  }
}
