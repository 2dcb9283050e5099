/** The Redis configuration as command-line options: the printer, the parser, and what survives. */
module RedisConfig {
  import opened Text
  import opened Net

  /** What belongs to libraries outside the repository: validity of an address, the address of the
      local machine, and atof. */
  datatype Lib = Lib(valid: Host -> bool, localHost: string, atof: string -> real)

  ghost predicate ReadsDecimals(lib: Lib) { forall n: nat :: lib.atof(PrintNat(n)) == n as real }

  /** Flags are ints, as in the structure they model; the interval is in microseconds. */
  datatype Config = Config(
    host: Host, delimiter: string, nsSeparator: string,
    hostsocket: string, interval: nat, dbnum: int, interactive: int, latencyMode: int, latencyHistory: int,
    clusterMode: int, clusterReissueCommand: int, slaveMode: int, getrdbMode: int, statMode: int, scanMode: int,
    intrinsicLatencyMode: int, intrinsicLatencyDuration: int, pattern: string, rdbFilename: string, bigkeys: int,
    auth: string, eval: string, lastCmdType: int)

  function Default(lib: Lib): Config {
    Config(Host(lib.localHost, 6379), "\n", ":", "", 0, 0, 0, 0, 0, 0, 0, 0, 0, 0, 0, 0, 0, "", "", 0, "", "", -1)
  }

  // ----- the options -----

  datatype Opt =
    | HOST | PORT | SOCKET | INTERVAL | DBNUM | AUTH | PATTERN | INTRINSIC | RDB | EVAL | DELIMITER | SEPARATOR
    | LATENCY | HISTORY | SLAVE | STAT | SCAN | BIGKEYS | CLUSTER

  function Name(o: Opt): string {
    match o
    case HOST => "-h"
    case PORT => "-p"
    case SOCKET => "-s"
    case INTERVAL => "-i"
    case DBNUM => "-n"
    case AUTH => "-a"
    case PATTERN => "--pattern"
    case INTRINSIC => "--intrinsic-latency"
    case RDB => "--rdb"
    case EVAL => "--eval"
    case DELIMITER => "-d"
    case SEPARATOR => "-ns"
    case LATENCY => "--latency"
    case HISTORY => "--latency-history"
    case SLAVE => "--slave"
    case STAT => "--stat"
    case SCAN => "--scan"
    case BIGKEYS => "--bigkeys"
    case CLUSTER => "-c"
  }

  /** The options that stand alone; the others take the next token as their value. */
  predicate IsFlag(o: Opt) {
    o.LATENCY? || o.HISTORY? || o.SLAVE? || o.STAT? || o.SCAN? || o.BIGKEYS? || o.CLUSTER?
  }

  function Named(token: string): Option<Opt> {
    if token == "-h" then Some(HOST)
    else if token == "-p" then Some(PORT)
    else if token == "-s" then Some(SOCKET)
    else if token == "-i" then Some(INTERVAL)
    else if token == "-n" then Some(DBNUM)
    else if token == "-a" then Some(AUTH)
    else if token == "--pattern" then Some(PATTERN)
    else if token == "--intrinsic-latency" then Some(INTRINSIC)
    else if token == "--rdb" then Some(RDB)
    else if token == "--eval" then Some(EVAL)
    else if token == "-d" then Some(DELIMITER)
    else if token == "-ns" then Some(SEPARATOR)
    else if token == "--latency" then Some(LATENCY)
    else if token == "--latency-history" then Some(HISTORY)
    else if token == "--slave" then Some(SLAVE)
    else if token == "--stat" then Some(STAT)
    else if token == "--scan" then Some(SCAN)
    else if token == "--bigkeys" then Some(BIGKEYS)
    else if token == "-c" then Some(CLUSTER)
    else None
  }

  lemma NamesDiffer(o: Opt)
    ensures Named(Name(o)) == Some(o)
  {
  }

  lemma NamedOnly(token: string)
    ensures token == "-h" <==> Named(token) == Some(HOST)
    ensures token == "-p" <==> Named(token) == Some(PORT)
    ensures token == "-s" <==> Named(token) == Some(SOCKET)
    ensures token == "-i" <==> Named(token) == Some(INTERVAL)
    ensures token == "-n" <==> Named(token) == Some(DBNUM)
    ensures token == "-a" <==> Named(token) == Some(AUTH)
    ensures token == "--pattern" <==> Named(token) == Some(PATTERN)
    ensures token == "--intrinsic-latency" <==> Named(token) == Some(INTRINSIC)
    ensures token == "--rdb" <==> Named(token) == Some(RDB)
    ensures token == "--eval" <==> Named(token) == Some(EVAL)
    ensures token == "-d" <==> Named(token) == Some(DELIMITER)
    ensures token == "-ns" <==> Named(token) == Some(SEPARATOR)
    ensures token == "--latency" <==> Named(token) == Some(LATENCY)
    ensures token == "--latency-history" <==> Named(token) == Some(HISTORY)
    ensures token == "--slave" <==> Named(token) == Some(SLAVE)
    ensures token == "--stat" <==> Named(token) == Some(STAT)
    ensures token == "--scan" <==> Named(token) == Some(SCAN)
    ensures token == "--bigkeys" <==> Named(token) == Some(BIGKEYS)
    ensures token == "-c" <==> Named(token) == Some(CLUSTER)
  {
  }

  lemma NamedIsListed(token: string)
    ensures Named(token).Some? && IsFlag(Named(token).value) ==>
            token == "--latency" || token == "--latency-history" || token == "--slave" || token == "--stat"
            || token == "--scan" || token == "--bigkeys" || token == "-c"
    ensures Named(token).Some? && !IsFlag(Named(token).value) ==>
            token == "-h" || token == "-p" || token == "-s" || token == "-i" || token == "-n" || token == "-a"
            || token == "--pattern" || token == "--intrinsic-latency"
            || token == "--rdb" || token == "--eval" || token == "-d" || token == "-ns"
  {
  }

  function Micros(seconds: real): nat {
    var micros := (seconds * 1000000.0).Floor;
    if micros < 0 then 0 else micros
  }

  /** The interval is the number of microseconds, rounded down; a negative time counts as none. */
  lemma MicrosBound(seconds: real)
    ensures seconds >= 0.0 ==> Micros(seconds) as real <= seconds * 1000000.0 < Micros(seconds) as real + 1.0
    ensures seconds < 0.0 ==> Micros(seconds) == 0
  {
  }

  function SetValue(lib: Lib, c: Config, o: Opt, v: string): Config {
    if o.HOST? then c.(host := c.host.(host := v))
    else if o.PORT? then c.(host := c.host.(port := ParseNat(v)))
    else if o.SOCKET? then c.(hostsocket := v)
    else if o.INTERVAL? then c.(interval := Micros(lib.atof(v)))
    else if o.DBNUM? then c.(dbnum := ParseInt(v))
    else if o.AUTH? then c.(auth := v)
    else if o.PATTERN? then c.(pattern := v)
    else if o.INTRINSIC? then c.(intrinsicLatencyMode := 1, intrinsicLatencyDuration := ParseInt(v))
    else if o.RDB? then c.(getrdbMode := 1, rdbFilename := v)
    else if o.EVAL? then c.(eval := v)
    else if o.DELIMITER? then c.(delimiter := v)
    else if o.SEPARATOR? then c.(nsSeparator := v)
    else c
  }

  function SetFlag(c: Config, o: Opt): Config {
    if o.LATENCY? then c.(latencyMode := 1)
    else if o.HISTORY? then c.(latencyMode := 1, latencyHistory := 1)
    else if o.SLAVE? then c.(slaveMode := 1)
    else if o.STAT? then c.(statMode := 1)
    else if o.SCAN? then c.(scanMode := 1)
    else if o.BIGKEYS? then c.(bigkeys := 1)
    else if o.CLUSTER? then c.(clusterMode := 1)
    else c
  }

  /** What one option does; flags ignore the value. */
  function Set(lib: Lib, c: Config, o: Opt, v: string): Config {
    if IsFlag(o) then SetFlag(c, o) else SetValue(lib, c, o, v)
  }

  lemma SetAddress(lib: Lib, c: Config, v: string)
    ensures Set(lib, c, HOST, v) == c.(host := c.host.(host := v))
    ensures Set(lib, c, PORT, v) == c.(host := c.host.(port := ParseNat(v)))
    ensures Set(lib, c, DELIMITER, v) == c.(delimiter := v)
    ensures Set(lib, c, SEPARATOR, v) == c.(nsSeparator := v)
  {
    hide Micros, ParseNat, ParseInt;
  }

  lemma SetTexts(lib: Lib, c: Config, v: string)
    ensures Set(lib, c, SOCKET, v) == c.(hostsocket := v)
    ensures Set(lib, c, AUTH, v) == c.(auth := v)
    ensures Set(lib, c, PATTERN, v) == c.(pattern := v)
    ensures Set(lib, c, EVAL, v) == c.(eval := v)
  {
    hide Micros, ParseNat, ParseInt;
  }

  lemma SetNumbers(lib: Lib, c: Config, v: string)
    ensures Set(lib, c, INTERVAL, v) == c.(interval := Micros(lib.atof(v)))
    ensures Set(lib, c, DBNUM, v) == c.(dbnum := ParseInt(v))
    ensures Set(lib, c, INTRINSIC, v) == c.(intrinsicLatencyMode := 1, intrinsicLatencyDuration := ParseInt(v))
    ensures Set(lib, c, RDB, v) == c.(getrdbMode := 1, rdbFilename := v)
  {
    hide Micros, ParseNat, ParseInt;
  }

  lemma SetModes(lib: Lib, c: Config, v: string)
    ensures Set(lib, c, LATENCY, v) == c.(latencyMode := 1)
    ensures Set(lib, c, HISTORY, v) == c.(latencyMode := 1, latencyHistory := 1)
    ensures Set(lib, c, SLAVE, v) == c.(slaveMode := 1)
    ensures Set(lib, c, STAT, v) == c.(statMode := 1)
    ensures Set(lib, c, SCAN, v) == c.(scanMode := 1)
    ensures Set(lib, c, BIGKEYS, v) == c.(bigkeys := 1)
    ensures Set(lib, c, CLUSTER, v) == c.(clusterMode := 1)
  {
    hide Micros, ParseNat, ParseInt;
  }

  // ----- the parser -----

  /** Options are read from the left until the first token that is not one, or lacks its value. */
  function ParseArgs(lib: Lib, c: Config, args: seq<string>): Config
    decreases |args|
  {
    if args == [] then c
    else
      match Named(args[0])
      case None => c
      case Some(o) =>
        if IsFlag(o) then ParseArgs(lib, Set(lib, c, o, args[0]), args[1..])
        else if |args| == 1 then c
        else ParseArgs(lib, Set(lib, c, o, args[1]), args[2..])
  }

  lemma ParseNext(lib: Lib, c: Config, args: seq<string>, i: nat)
    requires i <= |args|
    ensures ParseArgs(lib, c, args[i..]) ==
            if i == |args| then c
            else
              match Named(args[i])
              case None => c
              case Some(o) =>
                if IsFlag(o) then ParseArgs(lib, Set(lib, c, o, args[i]), args[i + 1..])
                else if i == |args| - 1 then c
                else ParseArgs(lib, Set(lib, c, o, args[i + 1]), args[i + 2..])
  {
    hide Named, Set;
    assert |args| - i > 0 ==> args[i..][1..] == args[i + 1..];
    assert |args| - i > 1 ==> args[i..][2..] == args[i + 2..];
  }

  /** One round of the loop of parseOptions, with the value taken when the option has one. */
  method ParseOption(lib: Lib, argv: seq<string>, at: nat, config: Config) returns (cfg: Config, i: nat, stop: bool)
    requires at < |argv|
    ensures var o := Named(argv[at]);
            && stop == (o.None? || (!IsFlag(o.value) && at == |argv| - 1))
            && (stop ==> cfg == config && i == at)
            && (!stop ==> i == (if IsFlag(o.value) then at else at + 1) && cfg == Set(lib, config, o.value, argv[i]))
  {
    hide *;
    SetModes(lib, config, argv[at]);
    if at + 1 < |argv| {
      SetAddress(lib, config, argv[at + 1]);
      SetTexts(lib, config, argv[at + 1]);
      SetNumbers(lib, config, argv[at + 1]);
    }
    cfg, i, stop := config, at, false;
    NamedOnly(argv[i]);
    NamedIsListed(argv[i]);
    var lastarg := i == |argv| - 1;
    if argv[i] == "-h" && !lastarg {
      i := i + 1;
      cfg := cfg.(host := cfg.host.(host := argv[i]));
    } else if argv[i] == "-p" && !lastarg {
      i := i + 1;
      cfg := cfg.(host := cfg.host.(port := ParseNat(argv[i])));
    } else if argv[i] == "-s" && !lastarg {
      i := i + 1;
      cfg := cfg.(hostsocket := argv[i]);
    } else if argv[i] == "-i" && !lastarg {
      i := i + 1;
      var seconds := lib.atof(argv[i]);
      cfg := cfg.(interval := Micros(seconds));
    } else if argv[i] == "-n" && !lastarg {
      i := i + 1;
      cfg := cfg.(dbnum := ParseInt(argv[i]));
    } else if argv[i] == "-a" && !lastarg {
      i := i + 1;
      cfg := cfg.(auth := argv[i]);
    } else if argv[i] == "--latency" {
      cfg := cfg.(latencyMode := 1);
    } else if argv[i] == "--latency-history" {
      cfg := cfg.(latencyMode := 1);
      cfg := cfg.(latencyHistory := 1);
    } else if argv[i] == "--slave" {
      cfg := cfg.(slaveMode := 1);
    } else if argv[i] == "--stat" {
      cfg := cfg.(statMode := 1);
    } else if argv[i] == "--scan" {
      cfg := cfg.(scanMode := 1);
    } else if argv[i] == "--pattern" && !lastarg {
      i := i + 1;
      cfg := cfg.(pattern := argv[i]);
    } else if argv[i] == "--intrinsic-latency" && !lastarg {
      i := i + 1;
      cfg := cfg.(intrinsicLatencyMode := 1);
      cfg := cfg.(intrinsicLatencyDuration := ParseInt(argv[i]));
    } else if argv[i] == "--rdb" && !lastarg {
      i := i + 1;
      cfg := cfg.(getrdbMode := 1);
      cfg := cfg.(rdbFilename := argv[i]);
    } else if argv[i] == "--bigkeys" {
      cfg := cfg.(bigkeys := 1);
    } else if argv[i] == "--eval" && !lastarg {
      i := i + 1;
      cfg := cfg.(eval := argv[i]);
    } else if argv[i] == "-c" {
      cfg := cfg.(clusterMode := 1);
    } else if argv[i] == "-d" && !lastarg {
      i := i + 1;
      cfg := cfg.(delimiter := argv[i]);
    } else if argv[i] == "-ns" && !lastarg {
      i := i + 1;
      cfg := cfg.(nsSeparator := argv[i]);
    } else {
      stop := true;
    }
  }

  /** parseOptions */
  method ParseOptions(lib: Lib, argv: seq<string>) returns (cfg: Config)
    ensures cfg == ParseArgs(lib, Default(lib), argv)
  {
    hide *;
    cfg := Default(lib);
    var i := 0;
    assert argv[0..] == argv;
    while i < |argv|
      invariant i <= |argv|
      invariant ParseArgs(lib, cfg, argv[i..]) == ParseArgs(lib, Default(lib), argv)
    {
      ParseNext(lib, cfg, argv, i);
      var stop;
      cfg, i, stop := ParseOption(lib, argv, i, cfg);
      if stop {
        return;
      }
      i := i + 1;
    }
    ParseNext(lib, cfg, argv, i);
  }

  // ----- the printer -----

  /** An option of the printed list, which appears when `on` holds. */
  datatype Choice = Choice(on: bool, opt: Opt, value: string)

  function TokensOf(ch: Choice): seq<string> {
    if !ch.on then [] else if IsFlag(ch.opt) then [Name(ch.opt)] else [Name(ch.opt), ch.value]
  }

  const ALL := 18
  const FRONT := 14

  /** The k-th option in the order in which they are printed. */
  function At(lib: Lib, c: Config, k: nat): Choice {
    if k == 0 then Choice(lib.valid(c.host), HOST, c.host.host)
    else if k == 1 then Choice(lib.valid(c.host), PORT, PrintNat(c.host.port))
    else if k == 2 then Choice(c.delimiter != "", DELIMITER, c.delimiter)
    else if k == 3 then Choice(c.nsSeparator != "", SEPARATOR, c.nsSeparator)
    else if k == 4 then Choice(c.hostsocket != "", SOCKET, c.hostsocket)
    else if k == 5 then Choice(c.interval != 0, INTERVAL, PrintNat(c.interval / 1000000))
    else if k == 6 then Choice(c.dbnum != 0, DBNUM, PrintInt(c.dbnum))
    else if k == 7 then Choice(c.auth != "", AUTH, c.auth)
    else if k == 8 then Choice(c.latencyMode != 0, if c.latencyHistory != 0 then HISTORY else LATENCY, "")
    else if k == 9 then Choice(c.slaveMode != 0, SLAVE, "")
    else if k == 10 then Choice(c.statMode != 0, STAT, "")
    else if k == 11 then Choice(c.scanMode != 0, SCAN, "")
    else if k == 12 then Choice(c.pattern != "", PATTERN, c.pattern)
    else if k == 13 then Choice(c.intrinsicLatencyMode != 0, INTRINSIC, PrintInt(c.intrinsicLatencyMode))
    else if k == 14 then Choice(c.getrdbMode != 0, RDB, c.rdbFilename)
    else if k == 15 then Choice(c.bigkeys != 0, BIGKEYS, "")
    else if k == 16 then Choice(c.eval != "", EVAL, c.eval)
    else Choice(c.clusterMode != 0, CLUSTER, "")
  }

  /** The tokens of options lo to hi. */
  function Tokens(lib: Lib, c: Config, lo: nat, hi: nat): seq<string> {
    if hi <= lo then [] else Tokens(lib, c, lo, hi - 1) + TokensOf(At(lib, c, hi - 1))
  }

  /** Intrinsic latency is printed with a second value, although the parser takes one. */
  function Stray(c: Config): seq<string> {
    if c.intrinsicLatencyMode != 0 then [PrintInt(c.intrinsicLatencyDuration)] else []
  }

  function Args(lib: Lib, c: Config): seq<string> {
    Tokens(lib, c, 0, FRONT) + Stray(c) + Tokens(lib, c, FRONT, ALL)
  }

  lemma NoTokens(lib: Lib, c: Config, k: nat)
    ensures Tokens(lib, c, k, k) == []
  {
  }

  /** push_back of an option, with its value when it has one. */
  function Pushed(argv: seq<string>, ch: Choice): seq<string> {
    if !ch.on then argv else if IsFlag(ch.opt) then argv + [Name(ch.opt)] else argv + [Name(ch.opt)] + [ch.value]
  }

  lemma Push(lib: Lib, c: Config, k: nat)
    ensures Tokens(lib, c, 0, k + 1) == Pushed(Tokens(lib, c, 0, k), At(lib, c, k))
  {
    hide Name, At;
  }

  /** The same behind other tokens. */
  lemma PushAfter(lib: Lib, c: Config, start: seq<string>, lo: nat, k: nat)
    requires lo <= k
    ensures start + Tokens(lib, c, lo, k + 1) == Pushed(start + Tokens(lib, c, lo, k), At(lib, c, k))
  {
    hide Name, At;
  }

  /** RemoteConfig::Args */
  method RemoteArgs(lib: Lib, c: Config) returns (argv: seq<string>)
    ensures argv == Tokens(lib, c, 0, 4)
  {
    hide Name, Tokens, TokensOf, PrintNat, PrintInt;
    argv := [];
    NoTokens(lib, c, 0);
    Push(lib, c, 0);
    if lib.valid(c.host) {
      argv := argv + [Name(HOST)];
      argv := argv + [c.host.host];
      Push(lib, c, 1);
      argv := argv + [Name(PORT)];
      argv := argv + [PrintNat(c.host.port)];
    } else {
      Push(lib, c, 1);
    }
    Push(lib, c, 2);
    if c.delimiter != "" {
      argv := argv + [Name(DELIMITER)];
      argv := argv + [c.delimiter];
    }
    Push(lib, c, 3);
    if c.nsSeparator != "" {
      argv := argv + [Name(SEPARATOR)];
      argv := argv + [c.nsSeparator];
    }
    assert argv == Tokens(lib, c, 0, 4);
  }

  /** The beginning of ConvertToString, up to the latency options. */
  method ServerArgs(lib: Lib, c: Config) returns (argv: seq<string>)
    ensures argv == Tokens(lib, c, 0, 9)
  {
    hide Name, Tokens, TokensOf, PrintNat, PrintInt;
    argv := RemoteArgs(lib, c);
    Push(lib, c, 4);
    if c.hostsocket != "" {
      argv := argv + [Name(SOCKET)];
      argv := argv + [c.hostsocket];
    }
    Push(lib, c, 5);
    if c.interval != 0 {
      argv := argv + [Name(INTERVAL)];
      argv := argv + [PrintNat(c.interval / 1000000)];
    }
    Push(lib, c, 6);
    if c.dbnum != 0 {
      argv := argv + [Name(DBNUM)];
      argv := argv + [PrintInt(c.dbnum)];
    }
    Push(lib, c, 7);
    if c.auth != "" {
      argv := argv + [Name(AUTH)];
      argv := argv + [c.auth];
    }
    Push(lib, c, 8);
    if c.latencyMode != 0 {
      if c.latencyHistory != 0 {
        argv := argv + [Name(HISTORY)];
      } else {
        argv := argv + [Name(LATENCY)];
      }
    }
    assert argv == Tokens(lib, c, 0, 9);
  }

  /** The next part of ConvertToString, up to the intrinsic latency. */
  method ScanArgs(lib: Lib, c: Config) returns (argv: seq<string>)
    ensures argv == Tokens(lib, c, 0, FRONT) + Stray(c)
  {
    hide Name, Tokens, TokensOf, PrintNat, PrintInt;
    argv := ServerArgs(lib, c);
    Push(lib, c, 9);
    if c.slaveMode != 0 {
      argv := argv + [Name(SLAVE)];
    }
    Push(lib, c, 10);
    if c.statMode != 0 {
      argv := argv + [Name(STAT)];
    }
    Push(lib, c, 11);
    if c.scanMode != 0 {
      argv := argv + [Name(SCAN)];
    }
    assert argv == Tokens(lib, c, 0, 12);
    Push(lib, c, 12);
    if c.pattern != "" {
      argv := argv + [Name(PATTERN)];
      argv := argv + [c.pattern];
    }
    Push(lib, c, 13);
    if c.intrinsicLatencyMode != 0 {
      argv := argv + [Name(INTRINSIC)];
      argv := argv + [PrintInt(c.intrinsicLatencyMode)];
      assert argv == Tokens(lib, c, 0, FRONT);
      argv := argv + [PrintInt(c.intrinsicLatencyDuration)];
    }
  }

  /** The token list of ConvertToString. */
  method ConvertToArgs(lib: Lib, c: Config) returns (argv: seq<string>)
    ensures argv == Args(lib, c)
  {
    hide Name, Tokens, TokensOf, PrintNat, PrintInt;
    argv := ScanArgs(lib, c);
    ghost var start := argv;
    NoTokens(lib, c, FRONT);
    assert start + [] == start;
    PushAfter(lib, c, start, FRONT, 14);
    if c.getrdbMode != 0 {
      argv := argv + [Name(RDB)];
      argv := argv + [c.rdbFilename];
    }
    PushAfter(lib, c, start, FRONT, 15);
    if c.bigkeys != 0 {
      argv := argv + [Name(BIGKEYS)];
    }
    PushAfter(lib, c, start, FRONT, 16);
    if c.eval != "" {
      argv := argv + [Name(EVAL)];
      argv := argv + [c.eval];
    }
    PushAfter(lib, c, start, FRONT, 17);
    if c.clusterMode != 0 {
      argv := argv + [Name(CLUSTER)];
    }
  }

  // ----- a configuration is determined by the last value given to each option -----

  type Given = map<Opt, string>

  function TextOf(g: Given, o: Opt, default_: string): string { if o in g then g[o] else default_ }

  function Bit(b: bool): int { if b then 1 else 0 }

  function Build(lib: Lib, g: Given): Config {
    Config(
      Host(TextOf(g, HOST, lib.localHost), if PORT in g then ParseNat(g[PORT]) else 6379),
      TextOf(g, DELIMITER, "\n"),
      TextOf(g, SEPARATOR, ":"),
      TextOf(g, SOCKET, ""),
      if INTERVAL in g then Micros(lib.atof(g[INTERVAL])) else 0,
      if DBNUM in g then ParseInt(g[DBNUM]) else 0,
      0,
      Bit(LATENCY in g || HISTORY in g),
      Bit(HISTORY in g),
      Bit(CLUSTER in g),
      0,
      Bit(SLAVE in g),
      Bit(RDB in g),
      Bit(STAT in g),
      Bit(SCAN in g),
      Bit(INTRINSIC in g),
      if INTRINSIC in g then ParseInt(g[INTRINSIC]) else 0,
      TextOf(g, PATTERN, ""),
      TextOf(g, RDB, ""),
      Bit(BIGKEYS in g),
      TextOf(g, AUTH, ""),
      TextOf(g, EVAL, ""),
      -1)
  }

  lemma FlagBuilds(lib: Lib, g: Given, o: Opt, v: string)
    requires IsFlag(o)
    ensures SetFlag(Build(lib, g), o) == Build(lib, g[o := v])
  {
    hide Micros, ParseNat, ParseInt;
    match o {
      case LATENCY =>
      case HISTORY =>
      case SLAVE =>
      case STAT =>
      case SCAN =>
      case BIGKEYS =>
      case CLUSTER =>
    }
  }

  lemma AddressBuilds(lib: Lib, g: Given, o: Opt, v: string)
    requires o == HOST || o == PORT || o == DELIMITER || o == SEPARATOR
    ensures SetValue(lib, Build(lib, g), o, v) == Build(lib, g[o := v])
  {
    hide Micros, ParseNat, ParseInt;
    match o {
      case HOST =>
      case PORT =>
      case DELIMITER =>
      case SEPARATOR =>
    }
  }

  lemma TextBuilds(lib: Lib, g: Given, o: Opt, v: string)
    requires o == SOCKET || o == AUTH || o == PATTERN || o == EVAL
    ensures SetValue(lib, Build(lib, g), o, v) == Build(lib, g[o := v])
  {
    hide Micros, ParseNat, ParseInt;
    match o {
      case SOCKET =>
      case AUTH =>
      case PATTERN =>
      case EVAL =>
    }
  }

  lemma NumberBuilds(lib: Lib, g: Given, o: Opt, v: string)
    requires o == INTERVAL || o == DBNUM || o == INTRINSIC || o == RDB
    ensures SetValue(lib, Build(lib, g), o, v) == Build(lib, g[o := v])
  {
    hide Micros, ParseNat, ParseInt;
    match o {
      case INTERVAL =>
      case DBNUM =>
      case INTRINSIC =>
      case RDB =>
    }
  }

  lemma ValueBuilds(lib: Lib, g: Given, o: Opt, v: string)
    requires !IsFlag(o)
    ensures SetValue(lib, Build(lib, g), o, v) == Build(lib, g[o := v])
  {
    hide SetValue, Build;
    match o {
      case HOST | PORT | DELIMITER | SEPARATOR => AddressBuilds(lib, g, o, v);
      case SOCKET | AUTH | PATTERN | EVAL => TextBuilds(lib, g, o, v);
      case INTERVAL | DBNUM | INTRINSIC | RDB => NumberBuilds(lib, g, o, v);
    }
  }

  lemma SetBuilds(lib: Lib, g: Given, o: Opt, v: string)
    ensures Set(lib, Build(lib, g), o, v) == Build(lib, g[o := v])
  {
    hide SetFlag, SetValue, Build;
    if IsFlag(o) {
      FlagBuilds(lib, g, o, v);
    } else {
      ValueBuilds(lib, g, o, v);
    }
  }

  /** The assignments that the parser reads from a token list. */
  function Read(g: Given, args: seq<string>): Given
    decreases |args|
  {
    if args == [] then g
    else
      match Named(args[0])
      case None => g
      case Some(o) =>
        if IsFlag(o) then Read(g[o := args[0]], args[1..])
        else if |args| == 1 then g
        else Read(g[o := args[1]], args[2..])
  }

  /** The parser's result depends on each option's last value only. */
  lemma {:induction false} ParseReads(lib: Lib, g: Given, args: seq<string>)
    ensures ParseArgs(lib, Build(lib, g), args) == Build(lib, Read(g, args))
    decreases |args|
  {
    hide Build, Set, Named;
    if args != [] && Named(args[0]).Some? {
      var o := Named(args[0]).value;
      if IsFlag(o) {
        SetBuilds(lib, g, o, args[0]);
        ParseReads(lib, g[o := args[0]], args[1..]);
      } else if |args| > 1 {
        SetBuilds(lib, g, o, args[1]);
        ParseReads(lib, g[o := args[1]], args[2..]);
      }
    }
  }

  /** The interval of a configuration comes from the last "-i" that the parser reaches: its time in
      microseconds, rounded down. */
  lemma IntervalIsLast(lib: Lib, args: seq<string>)
    ensures var g, c := Read(map[], args), ParseArgs(lib, Default(lib), args);
            && (INTERVAL !in g ==> c.interval == 0)
            && (INTERVAL in g && lib.atof(g[INTERVAL]) >= 0.0 ==>
                  var micros := lib.atof(g[INTERVAL]) * 1000000.0;
                  c.interval as real <= micros < c.interval as real + 1.0)
  {
    hide Micros, Read, ParseArgs, Default, ParseNat, ParseInt;
    NothingGiven(lib);
    ParseReads(lib, map[], args);
    var g := Read(map[], args);
    if INTERVAL in g {
      MicrosBound(lib.atof(g[INTERVAL]));
    }
  }

  /** In particular of "-i t" alone. */
  lemma IntervalOption(lib: Lib, t: string)
    requires lib.atof(t) >= 0.0
    ensures var c := ParseArgs(lib, Default(lib), ["-i", t]);
            c.interval as real <= lib.atof(t) * 1000000.0 < c.interval as real + 1.0
  {
    var args := ["-i", t];
    hide Micros, ParseArgs, Default, Build;
    NamesDiffer(INTERVAL);
    assert args[2..] == [];
    assert Read(map[], args) == map[INTERVAL := t];
    IntervalIsLast(lib, args);
  }

  // ----- what survives -----

  /** The place of an option among the printed ones. */
  function Rank(o: Opt): nat {
    match o
    case HOST => 0
    case PORT => 1
    case DELIMITER => 2
    case SEPARATOR => 3
    case SOCKET => 4
    case INTERVAL => 5
    case DBNUM => 6
    case AUTH => 7
    case LATENCY => 8
    case HISTORY => 8
    case SLAVE => 9
    case STAT => 10
    case SCAN => 11
    case PATTERN => 12
    case INTRINSIC => 13
    case RDB => 14
    case BIGKEYS => 15
    case EVAL => 16
    case CLUSTER => 17
  }

  lemma RankOfAt(lib: Lib, c: Config, k: nat)
    requires k < ALL
    ensures Rank(At(lib, c, k).opt) == k
  {
    hide PrintNat, PrintInt;
  }

  /** What options lo to hi give. */
  function GivenBy(lib: Lib, c: Config, g: Given, lo: nat, hi: nat): Given {
    if hi <= lo then g
    else
      var ch, before := At(lib, c, hi - 1), GivenBy(lib, c, g, lo, hi - 1);
      if !ch.on then before else if IsFlag(ch.opt) then before[ch.opt := Name(ch.opt)] else before[ch.opt := ch.value]
  }

  lemma {:induction false} ReadTokens(lib: Lib, c: Config, g: Given, lo: nat, hi: nat, rest: seq<string>)
    requires lo <= hi
    ensures Read(g, Tokens(lib, c, lo, hi) + rest) == Read(GivenBy(lib, c, g, lo, hi), rest)
    decreases hi
  {
    hide At, Name, Named;
    if hi == lo {
      assert Tokens(lib, c, lo, hi) + rest == rest;
    } else {
      var ch, g1 := At(lib, c, hi - 1), GivenBy(lib, c, g, lo, hi - 1);
      var more := TokensOf(ch) + rest;
      NamesDiffer(ch.opt);
      assert Tokens(lib, c, lo, hi) + rest == Tokens(lib, c, lo, hi - 1) + more;
      ReadTokens(lib, c, g, lo, hi - 1, more);
      if ch.on && IsFlag(ch.opt) {
        assert more[1..] == rest;
      } else if ch.on {
        assert more[2..] == rest;
      } else {
        assert more == rest;
      }
    }
  }

  lemma {:induction false} GivenLookup(lib: Lib, c: Config, k: nat, o: Opt)
    requires k <= ALL
    ensures o in GivenBy(lib, c, map[], 0, k) <==>
            Rank(o) < k && At(lib, c, Rank(o)).on && At(lib, c, Rank(o)).opt == o
    ensures o in GivenBy(lib, c, map[], 0, k) && !IsFlag(o) ==>
            GivenBy(lib, c, map[], 0, k)[o] == At(lib, c, Rank(o)).value
    decreases k
  {
    hide At, Rank, Name;
    if k > 0 {
      GivenLookup(lib, c, k - 1, o);
      RankOfAt(lib, c, k - 1);
    }
  }

  lemma {:induction false} GivenConcat(lib: Lib, c: Config, g: Given, lo: nat, mid: nat, hi: nat)
    requires lo <= mid <= hi
    ensures GivenBy(lib, c, GivenBy(lib, c, g, lo, mid), mid, hi) == GivenBy(lib, c, g, lo, hi)
    decreases hi
  {
    hide At, Name;
    if mid < hi {
      GivenConcat(lib, c, g, lo, mid, hi - 1);
    }
  }

  lemma NumbersAreNotOptions(n: int)
    ensures Named(PrintInt(n)).None?
  {
    var t := PrintInt(n);
    ParsePrintInt(n);
    assert t[|t| - 1] in t;
    NamedIsListed(t);
  }

  /** How many of the printed options are read: after intrinsic latency nothing is. */
  function Reached(c: Config): nat { if c.intrinsicLatencyMode != 0 then FRONT else ALL }

  lemma ReadPrinted(lib: Lib, c: Config)
    ensures Read(map[], Args(lib, c)) == GivenBy(lib, c, map[], 0, Reached(c))
  {
    hide At, Tokens, GivenBy, PrintInt, Named;
    var front, back := GivenBy(lib, c, map[], 0, FRONT), Tokens(lib, c, FRONT, ALL);
    ReadTokens(lib, c, map[], 0, FRONT, Stray(c) + back);
    assert Tokens(lib, c, 0, FRONT) + (Stray(c) + back) == Args(lib, c);
    if c.intrinsicLatencyMode != 0 {
      NumbersAreNotOptions(c.intrinsicLatencyDuration);
    } else {
      ReadTokens(lib, c, front, FRONT, ALL, []);
      assert Stray(c) + back == back && back + [] == back;
      GivenConcat(lib, c, map[], 0, FRONT, ALL);
    }
  }

  function AsFlag(n: int): int { Bit(n != 0) }

  /** What printing and parsing restore. */
  function Restored(lib: Lib, c: Config): Config {
    var intrinsic := c.intrinsicLatencyMode != 0;
    Config(
      if lib.valid(c.host) then c.host else Host(lib.localHost, 6379),
      if c.delimiter != "" then c.delimiter else "\n",
      if c.nsSeparator != "" then c.nsSeparator else ":",
      c.hostsocket,
      c.interval / 1000000 * 1000000,
      c.dbnum,
      0,
      AsFlag(c.latencyMode),
      if c.latencyMode != 0 then AsFlag(c.latencyHistory) else 0,
      if intrinsic then 0 else AsFlag(c.clusterMode),
      0,
      AsFlag(c.slaveMode),
      if intrinsic then 0 else AsFlag(c.getrdbMode),
      AsFlag(c.statMode),
      AsFlag(c.scanMode),
      AsFlag(c.intrinsicLatencyMode),
      c.intrinsicLatencyMode,
      c.pattern,
      if intrinsic || c.getrdbMode == 0 then "" else c.rdbFilename,
      if intrinsic then 0 else AsFlag(c.bigkeys),
      c.auth,
      if intrinsic then "" else c.eval,
      -1)
  }

  lemma WholeSeconds(lib: Lib, interval: nat)
    requires ReadsDecimals(lib)
    ensures Micros(lib.atof(PrintNat(interval / 1000000))) == interval / 1000000 * 1000000
  {
    hide PrintNat;
    var n := interval / 1000000;
    assert (n as real) * 1000000.0 == (n * 1000000) as real;
  }

  lemma NumbersRestored(lib: Lib, c: Config)
    requires ReadsDecimals(lib)
    ensures ParseNat(PrintNat(c.host.port)) == c.host.port && ParseInt(PrintInt(c.dbnum)) == c.dbnum
    ensures ParseInt(PrintInt(c.intrinsicLatencyMode)) == c.intrinsicLatencyMode
    ensures Micros(lib.atof(PrintNat(c.interval / 1000000))) == c.interval / 1000000 * 1000000
  {
    ParsePrintNat(c.host.port);
    ParsePrintInt(c.dbnum);
    ParsePrintInt(c.intrinsicLatencyMode);
    WholeSeconds(lib, c.interval);
  }

  lemma GivenTexts(lib: Lib, c: Config)
    ensures var g := GivenBy(lib, c, map[], 0, Reached(c));
            && TextOf(g, DELIMITER, "\n") == (if c.delimiter != "" then c.delimiter else "\n")
            && TextOf(g, SEPARATOR, ":") == (if c.nsSeparator != "" then c.nsSeparator else ":")
            && TextOf(g, SOCKET, "") == c.hostsocket
            && TextOf(g, AUTH, "") == c.auth
  {
    hide GivenBy, PrintNat, PrintInt;
    GivenLookup(lib, c, Reached(c), DELIMITER);
    GivenLookup(lib, c, Reached(c), SEPARATOR);
    GivenLookup(lib, c, Reached(c), SOCKET);
    GivenLookup(lib, c, Reached(c), AUTH);
  }

  lemma GivenLaterTexts(lib: Lib, c: Config)
    ensures var g := GivenBy(lib, c, map[], 0, Reached(c));
            && TextOf(g, PATTERN, "") == c.pattern
            && TextOf(g, RDB, "") == (if Reached(c) < ALL || c.getrdbMode == 0 then "" else c.rdbFilename)
            && TextOf(g, EVAL, "") == (if Reached(c) < ALL then "" else c.eval)
  {
    hide GivenBy, PrintNat, PrintInt;
    GivenLookup(lib, c, Reached(c), PATTERN);
    GivenLookup(lib, c, Reached(c), RDB);
    GivenLookup(lib, c, Reached(c), EVAL);
  }

  lemma GivenNumbers(lib: Lib, c: Config)
    ensures var g := GivenBy(lib, c, map[], 0, Reached(c));
            && (HOST in g <==> lib.valid(c.host)) && (HOST in g ==> g[HOST] == c.host.host)
            && (PORT in g <==> lib.valid(c.host)) && (PORT in g ==> g[PORT] == PrintNat(c.host.port))
            && (INTERVAL in g <==> c.interval != 0) && (INTERVAL in g ==> g[INTERVAL] == PrintNat(c.interval / 1000000))
            && (DBNUM in g <==> c.dbnum != 0) && (DBNUM in g ==> g[DBNUM] == PrintInt(c.dbnum))
            && (INTRINSIC in g <==> c.intrinsicLatencyMode != 0)
            && (INTRINSIC in g ==> g[INTRINSIC] == PrintInt(c.intrinsicLatencyMode))
  {
    hide GivenBy, PrintNat, PrintInt;
    GivenLookup(lib, c, Reached(c), HOST);
    GivenLookup(lib, c, Reached(c), PORT);
    GivenLookup(lib, c, Reached(c), INTERVAL);
    GivenLookup(lib, c, Reached(c), DBNUM);
    GivenLookup(lib, c, Reached(c), INTRINSIC);
  }

  lemma GivenFlags(lib: Lib, c: Config)
    ensures var g := GivenBy(lib, c, map[], 0, Reached(c));
            && (HISTORY in g <==> c.latencyMode != 0 && c.latencyHistory != 0)
            && (LATENCY in g <==> c.latencyMode != 0 && c.latencyHistory == 0)
            && (SLAVE in g <==> c.slaveMode != 0) && (STAT in g <==> c.statMode != 0)
  {
    hide GivenBy, PrintNat, PrintInt;
    GivenLookup(lib, c, Reached(c), HISTORY);
    GivenLookup(lib, c, Reached(c), LATENCY);
    GivenLookup(lib, c, Reached(c), SLAVE);
    GivenLookup(lib, c, Reached(c), STAT);
  }

  lemma GivenLaterFlags(lib: Lib, c: Config)
    ensures var g, all := GivenBy(lib, c, map[], 0, Reached(c)), Reached(c) == ALL;
            && (SCAN in g <==> c.scanMode != 0)
            && (RDB in g <==> all && c.getrdbMode != 0) && (BIGKEYS in g <==> all && c.bigkeys != 0)
            && (CLUSTER in g <==> all && c.clusterMode != 0)
  {
    hide GivenBy, PrintNat, PrintInt;
    GivenLookup(lib, c, Reached(c), SCAN);
    GivenLookup(lib, c, Reached(c), RDB);
    GivenLookup(lib, c, Reached(c), BIGKEYS);
    GivenLookup(lib, c, Reached(c), CLUSTER);
  }

  lemma TextsRestored(lib: Lib, c: Config)
    ensures var b, r := Build(lib, GivenBy(lib, c, map[], 0, Reached(c))), Restored(lib, c);
            && b.delimiter == r.delimiter && b.nsSeparator == r.nsSeparator && b.hostsocket == r.hostsocket
            && b.pattern == r.pattern && b.rdbFilename == r.rdbFilename && b.auth == r.auth
            && b.eval == r.eval
  {
    hide GivenBy, TextOf, Micros, ParseNat, ParseInt, PrintNat, PrintInt;
    GivenTexts(lib, c);
    GivenLaterTexts(lib, c);
  }

  lemma NumbersBuilt(lib: Lib, c: Config)
    requires ReadsDecimals(lib)
    ensures var b, r := Build(lib, GivenBy(lib, c, map[], 0, Reached(c))), Restored(lib, c);
            && b.host == r.host && b.interval == r.interval && b.dbnum == r.dbnum
            && b.intrinsicLatencyMode == r.intrinsicLatencyMode
            && b.intrinsicLatencyDuration == r.intrinsicLatencyDuration
  {
    hide GivenBy, TextOf, Micros, ParseNat, ParseInt, PrintNat, PrintInt;
    GivenNumbers(lib, c);
    NumbersRestored(lib, c);
    HostGiven(lib, c, GivenBy(lib, c, map[], 0, Reached(c)));
  }

  lemma FlagsRestored(lib: Lib, c: Config)
    ensures var b, r := Build(lib, GivenBy(lib, c, map[], 0, Reached(c))), Restored(lib, c);
            && b.interactive == r.interactive && b.latencyMode == r.latencyMode && b.latencyHistory == r.latencyHistory
            && b.clusterMode == r.clusterMode && b.clusterReissueCommand == r.clusterReissueCommand
            && b.slaveMode == r.slaveMode
            && b.getrdbMode == r.getrdbMode && b.statMode == r.statMode && b.scanMode == r.scanMode
            && b.bigkeys == r.bigkeys && b.lastCmdType == r.lastCmdType
  {
    hide GivenBy, TextOf, Micros, ParseNat, ParseInt, PrintNat, PrintInt;
    GivenFlags(lib, c);
    GivenLaterFlags(lib, c);
  }

  lemma SameFields(b: Config, r: Config)
    requires
      && b.host == r.host && b.delimiter == r.delimiter && b.nsSeparator == r.nsSeparator
      && b.hostsocket == r.hostsocket && b.interval == r.interval && b.dbnum == r.dbnum
      && b.interactive == r.interactive && b.latencyMode == r.latencyMode && b.latencyHistory == r.latencyHistory
      && b.clusterMode == r.clusterMode && b.clusterReissueCommand == r.clusterReissueCommand
      && b.slaveMode == r.slaveMode
      && b.getrdbMode == r.getrdbMode && b.statMode == r.statMode && b.scanMode == r.scanMode
      && b.intrinsicLatencyMode == r.intrinsicLatencyMode && b.intrinsicLatencyDuration == r.intrinsicLatencyDuration
      && b.pattern == r.pattern
      && b.rdbFilename == r.rdbFilename && b.bigkeys == r.bigkeys && b.auth == r.auth
      && b.eval == r.eval && b.lastCmdType == r.lastCmdType
    ensures b == r
  {
  }

  /** What the parser makes of a printed configuration, even when its values look like options. */
  lemma ParsePrinted(lib: Lib, c: Config)
    requires ReadsDecimals(lib)
    ensures ParseArgs(lib, Default(lib), Args(lib, c)) == Restored(lib, c)
  {
    hide *;
    NothingGiven(lib);
    ParseReads(lib, map[], Args(lib, c));
    ReadPrinted(lib, c);
    TextsRestored(lib, c);
    NumbersBuilt(lib, c);
    FlagsRestored(lib, c);
    SameFields(Build(lib, GivenBy(lib, c, map[], 0, Reached(c))), Restored(lib, c));
  }

  lemma HostGiven(lib: Lib, c: Config, g: Given)
    requires (HOST in g <==> lib.valid(c.host)) && (HOST in g ==> g[HOST] == c.host.host)
    ensures TextOf(g, HOST, lib.localHost) == if lib.valid(c.host) then c.host.host else lib.localHost
  {
  }

  lemma NothingGiven(lib: Lib)
    ensures Build(lib, map[]) == Default(lib)
  {
  }

  predicate IsBit(n: int) { n == 0 || n == 1 }

  /** The configurations that survive. */
  predicate Canonical(lib: Lib, c: Config) {
    && (lib.valid(c.host) || c.host == Host(lib.localHost, 6379))
    && c.delimiter != "" && c.nsSeparator != "" && c.interval % 1000000 == 0
    && IsBit(c.latencyMode) && IsBit(c.latencyHistory) && (c.latencyHistory == 1 ==> c.latencyMode == 1)
    && IsBit(c.slaveMode) && IsBit(c.statMode) && IsBit(c.scanMode)
    && IsBit(c.getrdbMode) && IsBit(c.bigkeys) && IsBit(c.clusterMode) && IsBit(c.intrinsicLatencyMode)
    && (c.getrdbMode == 0 ==> c.rdbFilename == "")
    && c.intrinsicLatencyDuration == c.intrinsicLatencyMode
    && (c.intrinsicLatencyMode != 0 ==> c.getrdbMode == 0 && c.bigkeys == 0 && c.eval == "" && c.clusterMode == 0)
    && c.interactive == 0 && c.clusterReissueCommand == 0 && c.lastCmdType == -1
  }

  /** A configuration survives printing and parsing exactly when it is canonical. */
  lemma ConfigRoundTrip(lib: Lib, c: Config)
    requires ReadsDecimals(lib)
    ensures ParseArgs(lib, Default(lib), Args(lib, c)) == c <==> Canonical(lib, c)
  {
    hide Default, ParseArgs, Args;
    ParsePrinted(lib, c);
  }

  /** The defect in the printed intrinsic latency: its duration is never restored, and every option
      printed after it is lost. */
  lemma IntrinsicLatencyIsLost(lib: Lib, c: Config)
    requires ReadsDecimals(lib) && c.intrinsicLatencyMode != 0
    ensures var r := ParseArgs(lib, Default(lib), Args(lib, c));
            && r.intrinsicLatencyDuration == c.intrinsicLatencyMode
            && r.getrdbMode == 0 && r.bigkeys == 0 && r.eval == "" && r.clusterMode == 0
  {
    hide Default, ParseArgs, Args;
    ParsePrinted(lib, c);
  }
}
