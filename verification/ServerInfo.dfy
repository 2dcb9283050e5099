/** The LevelDB and LMDB server-info texts, and their history logs. */
module ServerInfo {
  import opened Text
  import History

  const STATS_LABEL := "# Stats"

  /** The part of a line before its first ':', and the part after it; the whole line stands for
      both when there is no ':'. */
  function Field(line: string): string { line[..IndexOf(line, ':')] }

  function Value(line: string): string {
    var d := IndexOf(line, ':');
    if d < |line| then line[d + 1..] else line
  }

  lemma FieldAndValue(field: string, value: string)
    requires ':' !in field
    ensures Field(Line(field, value)) == field && Value(Line(field, value)) == value
  {
    IndexOfFirst(field, ':', value);
    assert field + [':'] + value == Line(field, value);
  }

  /** The text after the label that opens a server-info text, when it opens with one. */
  function AfterLabel(content: string): Option<string> {
    if STATS_LABEL <= content then Some(content[|STATS_LABEL|..]) else None
  }

  /** The loop of Make*ServerInfo: `word` grows until it is the label. */
  method FindLabel(content: string) returns (part: Option<string>)
    ensures part == AfterLabel(content)
  {
    var word := "";
    var i := 0;
    assert content[..0] == "";
    while i < |content|
      invariant i <= |content| && word == content[..i]
      invariant forall k :: 0 <= k <= i ==> content[..k] != STATS_LABEL
    {
      word := word + [content[i]];
      assert word == content[..i + 1];
      if word == STATS_LABEL {
        return Some(content[i + 1..]);
      }
      i := i + 1;
    }
    LabelIsTaken(content);
    part := None;
  }

  lemma LabelIsTaken(content: string)
    ensures STATS_LABEL <= content <==> |STATS_LABEL| <= |content| && content[..|STATS_LABEL|] == STATS_LABEL
  {
  }

  // ----- LevelDB -----

  datatype Stats = Stats(compactionsLevel: nat, fileSizeMb: nat, timeSec: nat, readMb: nat, writeMb: nat)

  const NO_STATS := Stats(0, 0, 0, 0, 0)

  function StatLines(s: Stats): seq<string> {
    [Line("compactions_level", PrintNat(s.compactionsLevel)), Line("file_size_mb", PrintNat(s.fileSizeMb)),
     Line("time_sec", PrintNat(s.timeSec)), Line("read_mb", PrintNat(s.readMb)), Line("write_mb", PrintNat(s.writeMb))]
  }

  /** ServerInfo::ToString */
  function ShowLeveldb(s: Stats): string { "# Stats" + CRLF + Unlines(StatLines(s)) }

  function SetStat(s: Stats, field: string, value: nat): Stats {
    if field == "compactions_level" then s.(compactionsLevel := value)
    else if field == "file_size_mb" then s.(fileSizeMb := value)
    else if field == "time_sec" then s.(timeSec := value)
    else if field == "read_mb" then s.(readMb := value)
    else if field == "write_mb" then s.(writeMb := value)
    else s
  }

  function AssignStat(s: Stats, line: string): Stats { SetStat(s, Field(line), ParseNat(Value(line))) }

  function AssignStats(s: Stats, lines: seq<string>): Stats
    decreases |lines|
  {
    if lines == [] then s else AssignStat(AssignStats(s, lines[..|lines| - 1]), lines[|lines| - 1])
  }

  /** Stats(text): the fields start with indeterminate values. */
  method StatsFromText(text: string, indeterminate: Stats) returns (s: Stats)
    ensures s == AssignStats(indeterminate, Lines(text))
  {
    hide FindCrLf, Lines, AssignStat, AssignStats;
    s := indeterminate;
    var start := 0;
    var pos := FindCrLf(text, start);
    ghost var done: seq<string> := [];
    assert text[0..] == text;
    AssignNone(indeterminate);
    while pos < |text|
      invariant start <= |text| && pos == FindCrLf(text, start)
      invariant done + Lines(text[start..]) == Lines(text) && s == AssignStats(indeterminate, done)
      decreases |text| - start
    {
      LinesFrom(text, start);
      var line := text[start..pos];
      s := AssignStat(s, line);
      AssignOneMore(indeterminate, done, line);
      done := done + [line];
      start := pos + 2;
      pos := FindCrLf(text, start);
    }
    LinesFrom(text, start);
    assert done + [] == done;
  }

  lemma AssignNone(s: Stats)
    ensures AssignStats(s, []) == s
  {
  }

  lemma AssignOneMore(s: Stats, done: seq<string>, line: string)
    ensures AssignStats(s, done + [line]) == AssignStat(AssignStats(s, done), line)
  {
    assert (done + [line])[..|done|] == done;
  }

  /** MakeLeveldbServerInfo */
  function MakeLeveldb(content: string): Option<Stats> {
    if content == "" then None
    else match AfterLabel(content)
      case None => Some(NO_STATS)
      case Some(part) => Some(AssignStats(NO_STATS, Lines(part)))
  }

  method MakeLeveldbServerInfo(content: string) returns (info: Option<Stats>)
    ensures info == MakeLeveldb(content)
  {
    if content == "" { return None; }
    var part := FindLabel(content);
    if part.None? { return Some(NO_STATS); }
    var s := StatsFromText(part.value, NO_STATS);
    info := Some(s);
  }

  lemma StatNames(s: Stats, v: nat)
    ensures SetStat(s, "compactions_level", v) == s.(compactionsLevel := v)
    ensures SetStat(s, "file_size_mb", v) == s.(fileSizeMb := v)
    ensures SetStat(s, "time_sec", v) == s.(timeSec := v)
    ensures SetStat(s, "read_mb", v) == s.(readMb := v)
    ensures SetStat(s, "write_mb", v) == s.(writeMb := v)
    ensures AssignStat(s, "") == s
  {
  }

  lemma NextStat(s: Stats, ls: seq<string>, k: nat, before: Stats, field: string, value: nat)
    requires k < |ls| && ls[k] == Line(field, PrintNat(value)) && ':' !in field
    requires AssignStats(s, ls[..k]) == before
    ensures AssignStats(s, ls[..k + 1]) == SetStat(before, field, value)
  {
    FieldAndValue(field, PrintNat(value));
    ParsePrintNat(value);
    assert ls[..k + 1][..k] == ls[..k];
  }

  lemma NumbersAreClean(n: nat)
    ensures NoCrLf(PrintNat(n)) && '\n' !in PrintNat(n)
  {
  }

  lemma StatLinesAreClean(s: Stats)
    ensures forall l :: l in StatLines(s) ==> NoCrLf(l)
  {
    hide PrintNat, Line;
    NumbersAreClean(s.compactionsLevel);
    NumbersAreClean(s.fileSizeMb);
    NumbersAreClean(s.timeSec);
    NumbersAreClean(s.readMb);
    NumbersAreClean(s.writeMb);
    LineIsClean("compactions_level", PrintNat(s.compactionsLevel));
    LineIsClean("file_size_mb", PrintNat(s.fileSizeMb));
    LineIsClean("time_sec", PrintNat(s.timeSec));
    LineIsClean("read_mb", PrintNat(s.readMb));
    LineIsClean("write_mb", PrintNat(s.writeMb));
  }

  /** LevelDB statistics survive printing and parsing, whatever the object started from. */
  lemma StatsRoundTrip(s: Stats, d: Stats)
    ensures AssignStats(d, Lines(CRLF + Unlines(StatLines(s)))) == s
    ensures MakeLeveldb(ShowLeveldb(s)) == Some(s)
  {
    StatsAssigned(s, d);
    StatsAssigned(s, NO_STATS);
    var part := CRLF + Unlines(StatLines(s));
    assert ShowLeveldb(s) == STATS_LABEL + part;
    assert ShowLeveldb(s)[|STATS_LABEL|..] == part;
  }

  lemma StatsAssigned(s: Stats, d: Stats)
    ensures AssignStats(d, Lines(CRLF + Unlines(StatLines(s)))) == s
  {
    hide Lines, Line, PrintNat, AssignStats, SetStat, Unlines;
    var ls, all := StatLines(s), [""] + StatLines(s);
    StatLinesAreClean(s);
    LinesOfUnlines(ls, "");
    EmptyText();
    LinesOfLine("", Unlines(ls));
    assert "" + CRLF + Unlines(ls) == CRLF + Unlines(ls);
    assert Unlines(ls) + "" == Unlines(ls) && ls + [] == ls;
    assert all[..0] == [] && all[..1] == [] + [""] && all[..6] == all;
    AssignNone(d);
    AssignOneMore(d, [], "");
    StatNames(d, 0);
    var d1 := d.(compactionsLevel := s.compactionsLevel);
    var d2 := d1.(fileSizeMb := s.fileSizeMb);
    var d3 := d2.(timeSec := s.timeSec);
    var d4 := d3.(readMb := s.readMb);
    NextStat(d, all, 1, d, "compactions_level", s.compactionsLevel);
    StatNames(d, s.compactionsLevel);
    NextStat(d, all, 2, d1, "file_size_mb", s.fileSizeMb);
    StatNames(d1, s.fileSizeMb);
    NextStat(d, all, 3, d2, "time_sec", s.timeSec);
    StatNames(d2, s.timeSec);
    NextStat(d, all, 4, d3, "read_mb", s.readMb);
    StatNames(d3, s.readMb);
    NextStat(d, all, 5, d4, "write_mb", s.writeMb);
    StatNames(d4, s.writeMb);
  }

  /** A line sets the number of the field that stands before its first ':', and nothing when there is
      no such field. */
  lemma OneStat(s: Stats, field: string, v: string)
    requires ':' !in field
    ensures AssignStat(s, field + ":" + v) ==
            if field == "compactions_level" then s.(compactionsLevel := ParseNat(v))
            else if field == "file_size_mb" then s.(fileSizeMb := ParseNat(v))
            else if field == "time_sec" then s.(timeSec := ParseNat(v))
            else if field == "read_mb" then s.(readMb := ParseNat(v))
            else if field == "write_mb" then s.(writeMb := ParseNat(v))
            else s
  {
    hide ParseNat;
    FieldAndValue(field, v);
    assert field + ":" + v == Line(field, v);
  }

  /** Of an LMDB text only the line of the path sets the path. */
  lemma OnePath(dbPath: string, field: string, v: string)
    requires ':' !in field
    ensures AssignPath(dbPath, field + ":" + v) == if field == "db_path" then v else dbPath
  {
    FieldAndValue(field, v);
    assert field + ":" + v == Line(field, v);
  }

  lemma EmptyText()
    ensures Lines("") == [] && NoCrLf("")
  {
  }

  // ----- framing in the history log -----

  /** Lines that contain no newline and do not begin with 0x1E make a text that the history reader
      cannot mistake for a stamp. */
  lemma {:induction false} UnlinesFrames(ls: seq<string>)
    requires forall l :: l in ls ==> l != "" && '\n' !in l && l[0] != History.MAGIC
    ensures History.Complete(Unlines(ls)) && History.NoStampLines(Unlines(ls))
    decreases |ls|
  {
    if ls != [] {
      var l, rest := ls[0], Unlines(ls[1..]);
      assert l in ls && forall k :: k in ls[1..] ==> k in ls;
      UnlinesFrames(ls[1..]);
      hide Unlines;
      assert Unlines(ls) == l + CRLF + rest by { UnlinesStep(ls); }
      OneLineFrames(l, rest);
    }
  }

  lemma UnlinesStep(ls: seq<string>)
    requires ls != []
    ensures Unlines(ls) == ls[0] + CRLF + Unlines(ls[1..])
  {
  }

  lemma OneLineFrames(l: string, rest: string)
    requires l != "" && '\n' !in l && l[0] != History.MAGIC
    requires History.Complete(rest) && History.NoStampLines(rest)
    ensures History.Complete(l + CRLF + rest) && History.NoStampLines(l + CRLF + rest)
  {
    var line := l + ['\r'];
    assert l + CRLF + rest == line + ['\n'] + rest;
    History.LineFirst(line, rest);
    assert (line + ['\n'])[0] == l[0];
    assert !History.IsStamp(line + ['\n']);
    hide History.FileLines, History.IsStamp;
    var text := l + CRLF + rest;
    assert forall k :: k in History.FileLines(text) ==> k == line + ['\n'] || k in History.FileLines(rest);
  }

  lemma LeveldbFrames(s: Stats)
    ensures History.Complete(ShowLeveldb(s)) && History.NoStampLines(ShowLeveldb(s))
  {
    hide PrintNat;
    NumbersAreClean(s.compactionsLevel);
    NumbersAreClean(s.fileSizeMb);
    NumbersAreClean(s.timeSec);
    NumbersAreClean(s.readMb);
    NumbersAreClean(s.writeMb);
    UnlinesFrames(StatLines(s));
    OneLineFrames(STATS_LABEL, Unlines(StatLines(s)));
  }

  /** A LevelDB history log is read back exactly as it was written. */
  lemma LeveldbHistory(shots: seq<(int, Stats)>)
    requires forall i :: 0 <= i < |shots| ==> shots[i].0 != 0
    ensures History.Read(History.Write(shots, ShowLeveldb), MakeLeveldb) ==
            seq(|shots|, i requires 0 <= i < |shots| => History.Shot(shots[i].0, Some(shots[i].1)))
  {
    hide *;
    forall i | 0 <= i < |shots|
      ensures History.Complete(ShowLeveldb(shots[i].1)) && History.NoStampLines(ShowLeveldb(shots[i].1))
      ensures MakeLeveldb(ShowLeveldb(shots[i].1)) == Some(shots[i].1)
    {
      LeveldbFrames(shots[i].1);
      StatsRoundTrip(shots[i].1, shots[i].1);
    }
    LeveldbFramed(shots);
    History.HistoryRoundTrip(shots, ShowLeveldb, MakeLeveldb);
  }

  lemma LeveldbFramed(shots: seq<(int, Stats)>)
    requires forall i :: 0 <= i < |shots| ==> shots[i].0 != 0 && History.Complete(ShowLeveldb(shots[i].1))
    requires forall i :: 0 <= i < |shots| ==> History.NoStampLines(ShowLeveldb(shots[i].1))
    ensures History.Framed(shots, ShowLeveldb) && History.StampFree(shots, ShowLeveldb)
  {
  }

  // ----- LMDB -----

  const DB_PATH := "db_path"

  function PathLine(dbPath: string): string { Line("db_path", dbPath) }

  /** ServerInfo::ToString */
  function ShowLmdb(dbPath: string): string { "# Stats" + CRLF + PathLine(dbPath) + CRLF }

  function AssignPath(dbPath: string, line: string): string { if Field(line) == DB_PATH then Value(line) else dbPath }

  function AssignPaths(dbPath: string, lines: seq<string>): string
    decreases |lines|
  {
    if lines == [] then dbPath else AssignPath(AssignPaths(dbPath, lines[..|lines| - 1]), lines[|lines| - 1])
  }

  lemma AssignNextPath(d: string, done: seq<string>, line: string)
    ensures AssignPaths(d, []) == d
    ensures AssignPaths(d, done + [line]) == AssignPath(AssignPaths(d, done), line)
  {
    assert (done + [line])[..|done|] == done;
  }

  /** Stats(text) */
  method PathFromText(text: string) returns (dbPath: string)
    ensures dbPath == AssignPaths("", Lines(text))
  {
    hide FindCrLf, Lines, AssignPath, AssignPaths;
    dbPath := "";
    var start := 0;
    var pos := FindCrLf(text, start);
    ghost var done: seq<string> := [];
    assert text[0..] == text;
    AssignNextPath("", [], "");
    while pos < |text|
      invariant start <= |text| && pos == FindCrLf(text, start)
      invariant done + Lines(text[start..]) == Lines(text) && dbPath == AssignPaths("", done)
      decreases |text| - start
    {
      LinesFrom(text, start);
      var line := text[start..pos];
      dbPath := AssignPath(dbPath, line);
      AssignNextPath("", done, line);
      done := done + [line];
      start := pos + 2;
      pos := FindCrLf(text, start);
    }
    LinesFrom(text, start);
    assert done + [] == done;
  }

  /** MakeLmdbServerInfo */
  function MakeLmdb(content: string): Option<string> {
    if content == "" then None
    else match AfterLabel(content)
      case None => Some("")
      case Some(part) => Some(AssignPaths("", Lines(part)))
  }

  method MakeLmdbServerInfo(content: string) returns (info: Option<string>)
    ensures info == MakeLmdb(content)
  {
    if content == "" { return None; }
    var part := FindLabel(content);
    if part.None? { return Some(""); }
    var dbPath := PathFromText(part.value);
    info := Some(dbPath);
  }

  /** Whatever is parsed from a text contains no CRLF. */
  lemma {:induction false} ParsedPathIsClean(lines: seq<string>)
    requires forall l :: l in lines ==> NoCrLf(l)
    ensures NoCrLf(AssignPaths("", lines))
    decreases |lines|
  {
    if lines != [] {
      var line := lines[|lines| - 1];
      ParsedPathIsClean(lines[..|lines| - 1]);
      assert line in lines;
      var d := IndexOf(line, ':');
      SuffixIsClean(line, if d < |line| then d + 1 else 0);
      assert line[0..] == line;
    }
  }

  /** A path survives printing and parsing exactly when it contains no CRLF. */
  lemma PathRoundTrip(dbPath: string)
    ensures MakeLmdb(ShowLmdb(dbPath)) == Some(dbPath) <==> NoCrLf(dbPath)
  {
    hide Lines, AssignPaths, FindCrLf;
    var part := CRLF + PathLine(dbPath) + CRLF;
    assert ShowLmdb(dbPath) == STATS_LABEL + part;
    assert ShowLmdb(dbPath)[|STATS_LABEL|..] == part;
    LinesAreClean(part);
    ParsedPathIsClean(Lines(part));
    if NoCrLf(dbPath) {
      LinesOfPart(dbPath);
      FieldAndValue(DB_PATH, dbPath);
      AssignNextPath("", [], "");
      AssignNextPath("", [""], PathLine(dbPath));
      assert [] + [""] == [""] && [""] + [PathLine(dbPath)] == ["", PathLine(dbPath)];
      assert Field("") == "";
    }
  }

  lemma LinesOfPart(dbPath: string)
    requires NoCrLf(dbPath)
    ensures Lines(CRLF + PathLine(dbPath) + CRLF) == ["", PathLine(dbPath)]
  {
    hide Lines, FindCrLf;
    EmptyText();
    LineIsClean(DB_PATH, dbPath);
    LinesOfLine("", PathLine(dbPath) + CRLF);
    LinesOfLine(PathLine(dbPath), "");
    assert "" + CRLF + (PathLine(dbPath) + CRLF) == CRLF + PathLine(dbPath) + CRLF;
    assert PathLine(dbPath) + CRLF + "" == PathLine(dbPath) + CRLF;
  }

  /** An LMDB history log is read back as it was written exactly when no path contains CRLF and none
      makes a line that passes for a stamp. */
  lemma LmdbHistory(shots: seq<(int, string)>)
    requires forall i :: 0 <= i < |shots| ==> shots[i].0 != 0
    ensures History.Read(History.Write(shots, ShowLmdb), MakeLmdb) ==
            seq(|shots|, i requires 0 <= i < |shots| => History.Shot(shots[i].0, Some(shots[i].1)))
       <==> forall i :: 0 <= i < |shots| ==> NoCrLf(shots[i].1) && History.NoStampLines(ShowLmdb(shots[i].1))
  {
    hide MakeLmdb, History.NoStampLines, History.Read, History.Write;
    forall i | 0 <= i < |shots|
      ensures History.Complete(ShowLmdb(shots[i].1))
      ensures MakeLmdb(ShowLmdb(shots[i].1)) == Some(shots[i].1) <==> NoCrLf(shots[i].1)
    {
      PathRoundTrip(shots[i].1);
    }
    History.HistoryRoundTrip(shots, ShowLmdb, MakeLmdb);
  }

  /** In particular when no path contains a newline. */
  lemma LmdbHistoryOfPlainPaths(shots: seq<(int, string)>)
    requires forall i :: 0 <= i < |shots| ==> shots[i].0 != 0 && '\n' !in shots[i].1
    ensures History.Read(History.Write(shots, ShowLmdb), MakeLmdb) ==
            seq(|shots|, i requires 0 <= i < |shots| => History.Shot(shots[i].0, Some(shots[i].1)))
  {
    hide ShowLmdb, MakeLmdb, History.NoStampLines, History.Read, History.Write;
    LmdbHistory(shots);
    forall i | 0 <= i < |shots|
      ensures NoCrLf(shots[i].1) && History.NoStampLines(ShowLmdb(shots[i].1))
    {
      PlainPathFrames(shots[i].1);
    }
  }

  lemma PlainPathFrames(dbPath: string)
    requires '\n' !in dbPath
    ensures NoCrLf(dbPath) && History.NoStampLines(ShowLmdb(dbPath))
  {
    hide History.FileLines, History.IsStamp;
    var l := PathLine(dbPath);
    assert l[0] == 'd' && '\n' !in l;
    NoTextFrames();
    OneLineFrames(l, "");
    assert l + CRLF + "" == l + CRLF;
    OneLineFrames(STATS_LABEL, l + CRLF);
    assert STATS_LABEL + CRLF + (l + CRLF) == ShowLmdb(dbPath);
  }

  lemma NoTextFrames()
    ensures History.Complete("") && History.NoStampLines("")
  {
  }
}
