/** The server-info history log: time stamps that frame the printed info texts, and the reader. */
module History {
  import opened Text
  import opened Sequences

  const MAGIC := 0x1E as char

  /** ServerInfoSnapShoot: the info is None where the text yields no object. */
  datatype Shot<I> = Shot(time: int, info: Option<I>)

  /** createStamp */
  function Stamp(time: int): string { [0x1E as char] + PrintInt(time) + ['\n'] }

  /** getStamp: the time in the line, 0 when the line is not a stamp. */
  function StampTime(line: string): int {
    if line == "" || line[0] != MAGIC || |line| == 1 then 0
    else
      var stamp := line[1..];
      ParseInt(if stamp[|stamp| - 1] == '\n' then stamp[..|stamp| - 1] else stamp)
  }

  predicate IsStamp(line: string) { StampTime(line) != 0 }

  /** getStamp works on a copy of the line. */
  method GetStamp(line: string) returns (isStamp: bool, time: int)
    ensures isStamp == IsStamp(line) && (isStamp ==> time == StampTime(line))
  {
    var stamp := line;
    time := 0;
    if |stamp| == 0 { return false, 0; }
    if stamp[0] != MAGIC { return false, 0; }
    stamp := stamp[1..];
    if |stamp| == 0 { return false, 0; }
    if stamp[|stamp| - 1] == '\n' {
      stamp := stamp[..|stamp| - 1];
    }
    time := ParseInt(stamp);
    isStamp := time != 0;
  }

  lemma StampRoundTrip(time: int)
    ensures StampTime(Stamp(time)) == time
    ensures forall c :: c in PrintInt(time) ==> c != '\n'
  {
    ParsePrintInt(time);
    var stamp := Stamp(time)[1..];
    assert stamp == PrintInt(time) + ['\n'];
    assert stamp[..|stamp| - 1] == PrintInt(time);
  }

  // ----- lines of a file -----

  /** The newline-terminated lines, each with its newline; a last line without one is not complete. */
  function FileLines(s: string): seq<string>
    decreases |s|
  {
    var n := IndexOf(s, '\n');
    if n >= |s| then [] else [s[..n + 1]] + FileLines(s[n + 1..])
  }

  predicate Complete(s: string) { s == "" || s[|s| - 1] == '\n' }

  lemma LineFirst(l: string, s: string)
    requires '\n' !in l
    ensures FileLines(l + ['\n'] + s) == [l + ['\n']] + FileLines(s)
  {
    var t := l + ['\n'] + s;
    IndexOfFirst(l, '\n', s);
    assert t[..|l| + 1] == l + ['\n'] && t[|l| + 1..] == s;
  }

  lemma {:induction false} LinesConcat(a: string, b: string)
    requires Complete(a)
    ensures FileLines(a + b) == FileLines(a) + FileLines(b)
    decreases |a|
  {
    if a == "" {
      assert a + b == b;
    } else {
      var l, rest := FirstLine(a);
      hide FileLines;
      LinesConcat(rest, b);
      LineFirst(l, rest);
      LineFirst(l, rest + b);
      Assoc(l + ['\n'], rest, b);
      Assoc([l + ['\n']], FileLines(rest), FileLines(b));
    }
  }

  /** A complete text starts with a line and is complete after it. */
  lemma FirstLine(a: string) returns (l: string, rest: string)
    requires Complete(a) && a != ""
    ensures a == l + ['\n'] + rest && '\n' !in l && Complete(rest) && |rest| < |a|
  {
    var n := IndexOf(a, '\n');
    l, rest := a[..n], a[n + 1..];
  }

  // ----- the reader -----

  datatype State<I> = State(curStamp: int, dataInfo: string, infos: seq<Shot<I>>)

  function Flush<I>(st: State<I>, make: string -> Option<I>): seq<Shot<I>> {
    if st.curStamp != 0 then st.infos + [Shot(st.curStamp, make(st.dataInfo))] else st.infos
  }

  function OnLine<I>(st: State<I>, line: string, make: string -> Option<I>): State<I> {
    if IsStamp(line) then State(StampTime(line), "", Flush(st, make))
    else st.(dataInfo := st.dataInfo + line)
  }

  function OnLines<I>(st: State<I>, lines: seq<string>, make: string -> Option<I>): State<I>
    decreases |lines|
  {
    if lines == [] then st else OnLines(OnLine(st, lines[0], make), lines[1..], make)
  }

  function Start<I>(): State<I> { State(0, "", []) }

  /** What the reader makes of a file. */
  function Read<I>(content: string, make: string -> Option<I>): seq<Shot<I>> {
    Flush(OnLines(Start(), FileLines(content), make), make)
  }

  /** The loop of HandleLoadServerInfoHistoryEvent over readLine and isEof. */
  method ReadHistory<I>(content: string, make: string -> Option<I>) returns (tmpInfos: seq<Shot<I>>)
    ensures tmpInfos == Read(content, make)
  {
    hide OnLine;
    tmpInfos := [];
    var curStamp, dataInfo, rest, eof := 0, "", content, false;
    while !eof
      invariant !eof ==>
        OnLines(State(curStamp, dataInfo, tmpInfos), FileLines(rest), make)
        == OnLines(Start(), FileLines(content), make)
      invariant eof ==> tmpInfos == Read(content, make)
      decreases |rest|, !eof
    {
      var n := IndexOf(rest, '\n');
      if n >= |rest| {
        // readLine fails, or reads a line that the end of the file cuts off
        eof := true;
        if curStamp != 0 {
          tmpInfos := tmpInfos + [Shot(curStamp, make(dataInfo))];
        }
        break;
      }
      var data := rest[..n + 1];
      OnLineCases(State(curStamp, dataInfo, tmpInfos), data, make);
      rest := rest[n + 1..];
      var isSt, tmpStamp := GetStamp(data);
      if isSt {
        if curStamp != 0 {
          tmpInfos := tmpInfos + [Shot(curStamp, make(dataInfo))];
        }
        curStamp := tmpStamp;
        dataInfo := "";
      } else {
        dataInfo := dataInfo + data;
      }
    }
  }

  lemma OnLineCases<I>(st: State<I>, line: string, make: string -> Option<I>)
    ensures OnLine(st, line, make) ==
            if IsStamp(line) then State(StampTime(line), "", Flush(st, make))
            else State(st.curStamp, st.dataInfo + line, st.infos)
  {
  }

  // ----- the writer -----

  /** What timerEvent appends for each snapshot: the stamp, then the text of the info. */
  function Write<I>(shots: seq<(int, I)>, show: I -> string): string {
    if shots == [] then "" else Stamp(shots[0].0) + show(shots[0].1) + Write(shots[1..], show)
  }

  /** No line of an info text passes for a stamp. */
  predicate NoStampLines(text: string) { forall l :: l in FileLines(text) ==> !IsStamp(l) }

  function Snapshots<I>(shots: seq<(int, I)>, show: I -> string, make: string -> Option<I>): seq<Shot<I>> {
    seq(|shots|, i requires 0 <= i < |shots| => Shot(shots[i].0, make(show(shots[i].1))))
  }

  lemma {:induction false} OnLinesConcat<I>(st: State<I>, a: seq<string>, b: seq<string>, make: string -> Option<I>)
    ensures OnLines(st, a + b, make) == OnLines(OnLines(st, a, make), b, make)
    decreases |a|
  {
    hide OnLine;
    if a == [] {
      assert a + b == b;
    } else {
      assert (a + b)[0] == a[0] && (a + b)[1..] == a[1..] + b;
      OnLinesConcat(OnLine(st, a[0], make), a[1..], b, make);
    }
  }

  lemma OnLinesStep<I>(st: State<I>, line: string, rest: seq<string>, make: string -> Option<I>)
    ensures OnLines(st, [line] + rest, make) == OnLines(OnLine(st, line, make), rest, make)
  {
    assert ([line] + rest)[1..] == rest;
  }

  lemma OnPlainLine<I>(st: State<I>, line: string, make: string -> Option<I>)
    requires !IsStamp(line)
    ensures OnLine(st, line, make) == st.(dataInfo := st.dataInfo + line)
  {
  }

  lemma NotStampsIn(line: string, rest: string, text: string)
    requires NoStampLines(text) && FileLines(text) == [line] + FileLines(rest)
    ensures !IsStamp(line) && NoStampLines(rest)
  {
    hide IsStamp, FileLines;
    assert line in FileLines(text);
    assert forall l :: l in FileLines(rest) ==> l in FileLines(text);
  }

  /** Lines that are not stamps are collected unchanged. */
  lemma {:induction false} Collect<I>(st: State<I>, text: string, make: string -> Option<I>)
    requires Complete(text) && NoStampLines(text)
    ensures OnLines(st, FileLines(text), make) == st.(dataInfo := st.dataInfo + text)
    decreases |text|
  {
    hide *;
    if text == "" {
      CollectNothing(st, make);
    } else {
      var l, rest := FirstLine(text);
      var line := l + ['\n'];
      LineFirst(l, rest);
      NotStampsIn(line, rest, text);
      OnLinesStep(st, line, FileLines(rest), make);
      OnPlainLine(st, line, make);
      Collect(st.(dataInfo := st.dataInfo + line), rest, make);
      Assoc(st.dataInfo, line, rest);
    }
  }

  lemma CollectNothing<I>(st: State<I>, make: string -> Option<I>)
    ensures OnLines(st, FileLines(""), make) == st && st.dataInfo + "" == st.dataInfo
  {
  }

  /** The log is only ever appended to: a stamp and a text for each snapshot, and nothing else. */
  lemma {:induction false} WriteAppends<I>(shots: seq<(int, I)>, time: int, info: I, show: I -> string)
    ensures Write(shots + [(time, info)], show) == Write(shots, show) + Stamp(time) + show(info)
    decreases |shots|
  {
    var all := shots + [(time, info)];
    if shots == [] {
      assert Write(all[1..], show) == "";
    } else {
      assert all[1..] == shots[1..] + [(time, info)];
      WriteAppends(shots[1..], time, info, show);
    }
  }

  lemma LinesOfShot(time: int, text: string, rest: string)
    requires Complete(text)
    ensures FileLines(Stamp(time) + text + rest) == [Stamp(time)] + (FileLines(text) + FileLines(rest))
  {
    StampRoundTrip(time);
    var l := [MAGIC] + PrintInt(time);
    assert '\n' !in l;
    assert Stamp(time) + text + rest == l + ['\n'] + (text + rest);
    LineFirst(l, text + rest);
    LinesConcat(text, rest);
  }

  ghost predicate Framed<I>(shots: seq<(int, I)>, show: I -> string) {
    forall i :: 0 <= i < |shots| ==> shots[i].0 != 0 && Complete(show(shots[i].1))
  }

  ghost predicate StampFree<I>(shots: seq<(int, I)>, show: I -> string) {
    forall i :: 0 <= i < |shots| ==> NoStampLines(show(shots[i].1))
  }

  /** When no info text has a stamp line, the reader sees exactly the snapshots that were written. */
  lemma {:induction false} ReadBack<I>(st: State<I>, shots: seq<(int, I)>, show: I -> string, make: string -> Option<I>)
    requires Framed(shots, show) && StampFree(shots, show)
    ensures Flush(OnLines(st, FileLines(Write(shots, show)), make), make)
         == Flush(st, make) + Snapshots(shots, show, make)
    decreases |shots|
  {
    if shots == [] {
      assert Flush(st, make) + [] == Flush(st, make);
    } else {
      var t, i, rest := shots[0].0, shots[0].1, shots[1..];
      var text, more := show(i), Write(rest, show);
      var st2 := State(t, text, Flush(st, make));
      assert Write(shots, show) == Stamp(t) + text + more;
      hide OnLines, FileLines, Write;
      ReadOne(st, t, text, more, make);
      ReadBack(st2, rest, show, make);
      SnapshotsStep(Flush(st, make), shots, show, make);
    }
  }

  lemma SnapshotsStep<I>(before: seq<Shot<I>>, shots: seq<(int, I)>, show: I -> string, make: string -> Option<I>)
    requires shots != []
    ensures (before + [Shot(shots[0].0, make(show(shots[0].1)))]) + Snapshots(shots[1..], show, make)
         == before + Snapshots(shots, show, make)
  {
  }

  lemma ReadOne<I>(st: State<I>, t: int, text: string, more: string, make: string -> Option<I>)
    requires t != 0 && Complete(text) && NoStampLines(text)
    ensures OnLines(st, FileLines(Stamp(t) + text + more), make)
         == OnLines(State(t, text, Flush(st, make)), FileLines(more), make)
  {
    LinesOfShot(t, text, more);
    StampRoundTrip(t);
    var st1 := State(t, "", Flush(st, make));
    var ls := FileLines(text) + FileLines(more);
    assert ([Stamp(t)] + ls)[1..] == ls;
    assert OnLine(st, Stamp(t), make) == st1;
    OnLinesConcat(st1, FileLines(text), FileLines(more), make);
    Collect(st1, text, make);
    assert "" + text == text;
  }

  // ----- every stamp line makes a snapshot -----

  ghost function CountStamps(lines: seq<string>): nat {
    if lines == [] then 0 else (if IsStamp(lines[0]) then 1 else 0) + CountStamps(lines[1..])
  }

  lemma {:induction false} CountConcat(a: seq<string>, b: seq<string>)
    ensures CountStamps(a + b) == CountStamps(a) + CountStamps(b)
    decreases |a|
  {
    if a == [] {
      assert a + b == b;
    } else {
      assert (a + b)[0] == a[0] && (a + b)[1..] == a[1..] + b;
      CountConcat(a[1..], b);
    }
  }

  lemma {:induction false} EveryStampCounts<I>(st: State<I>, lines: seq<string>, make: string -> Option<I>)
    ensures |Flush(OnLines(st, lines, make), make)| == |Flush(st, make)| + CountStamps(lines)
    decreases |lines|
  {
    if lines != [] {
      EveryStampCounts(OnLine(st, lines[0], make), lines[1..], make);
    }
  }

  lemma {:induction false} NoStampsIff(lines: seq<string>)
    ensures CountStamps(lines) == 0 <==> forall l :: l in lines ==> !IsStamp(l)
    decreases |lines|
  {
    if lines != [] {
      NoStampsIff(lines[1..]);
      assert forall l :: l in lines <==> l == lines[0] || l in lines[1..];
    }
  }

  lemma StampsOfShot(t: int, text: string, more: string)
    requires t != 0 && Complete(text)
    ensures CountStamps(FileLines(Stamp(t) + text + more))
         == 1 + CountStamps(FileLines(text)) + CountStamps(FileLines(more))
    ensures CountStamps(FileLines(text)) == 0 <==> NoStampLines(text)
  {
    LinesOfShot(t, text, more);
    StampRoundTrip(t);
    CountConcat([Stamp(t)], FileLines(text) + FileLines(more));
    CountConcat(FileLines(text), FileLines(more));
    assert CountStamps([Stamp(t)]) == 1 by { assert [Stamp(t)][1..] == []; }
    NoStampsIff(FileLines(text));
  }

  lemma FramedTail<I>(shots: seq<(int, I)>, show: I -> string)
    requires Framed(shots, show) && shots != []
    ensures shots[0].0 != 0 && Complete(show(shots[0].1)) && Framed(shots[1..], show)
    ensures StampFree(shots, show) <==> NoStampLines(show(shots[0].1)) && StampFree(shots[1..], show)
  {
    hide NoStampLines, Complete;
    assert forall k :: 0 <= k < |shots[1..]| ==> shots[1..][k] == shots[k + 1];
    assert forall k :: 0 < k < |shots| ==> shots[k] == shots[1..][k - 1];
  }

  lemma {:induction false} StampsOfWrite<I>(shots: seq<(int, I)>, show: I -> string)
    requires Framed(shots, show)
    ensures CountStamps(FileLines(Write(shots, show))) >= |shots|
    ensures CountStamps(FileLines(Write(shots, show))) == |shots| <==> StampFree(shots, show)
    decreases |shots|
  {
    if shots != [] {
      hide Framed, StampFree, NoStampLines, Complete, CountStamps, FileLines, Stamp;
      FramedTail(shots, show);
      StampsOfShot(shots[0].0, show(shots[0].1), Write(shots[1..], show));
      StampsOfWrite(shots[1..], show);
    }
  }

  lemma SnapshotsKeep<I>(shots: seq<(int, I)>, show: I -> string, make: string -> Option<I>)
    ensures Snapshots(shots, show, make) ==
            seq(|shots|, i requires 0 <= i < |shots| => Shot(shots[i].0, Some(shots[i].1)))
       <==> forall i :: 0 <= i < |shots| ==> make(show(shots[i].1)) == Some(shots[i].1)
  {
    var expected := seq(|shots|, i requires 0 <= i < |shots| => Shot(shots[i].0, Some(shots[i].1)));
    var actual := Snapshots(shots, show, make);
    assert forall i :: 0 <= i < |shots| ==>
      (actual[i] == expected[i] <==> make(show(shots[i].1)) == Some(shots[i].1));
  }

  /** The history is read back as it was written exactly when no line of an info text is a stamp
      and every info survives its own printing and parsing. */
  lemma HistoryRoundTrip<I>(shots: seq<(int, I)>, show: I -> string, make: string -> Option<I>)
    requires Framed(shots, show)
    ensures Read(Write(shots, show), make) ==
            seq(|shots|, i requires 0 <= i < |shots| => Shot(shots[i].0, Some(shots[i].1)))
       <==> StampFree(shots, show) && forall i :: 0 <= i < |shots| ==> make(show(shots[i].1)) == Some(shots[i].1)
  {
    var expected := seq(|shots|, i requires 0 <= i < |shots| => Shot(shots[i].0, Some(shots[i].1)));
    var actual := Read(Write(shots, show), make);
    EveryStampCounts(Start(), FileLines(Write(shots, show)), make);
    StampsOfWrite(shots, show);
    if StampFree(shots, show) {
      ReadBack(Start(), shots, show, make);
      assert actual == Snapshots(shots, show, make);
      SnapshotsKeep(shots, show, make);
    } else {
      assert |actual| > |expected|;
    }
  }
}
