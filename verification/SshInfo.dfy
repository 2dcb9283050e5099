/** SSHInfo: its printed form and the line parser that reads it back. */
module SshInfo {
  import opened Text
  import opened Net

  /** Conversion of addresses, which belongs to a library outside the repository. */
  datatype HostCodec = HostCodec(print_: Host -> string, parse: string -> Host)

  ghost predicate Inverse(codec: HostCodec) {
    forall h :: codec.parse(codec.print_(h)) == h && NoCrLf(codec.print_(h))
  }

  datatype Method = UNKNOWN | PASSWORD | PUBLICKEY

  function MethodText(m: Method): string {
    match m
    case UNKNOWN => "0"
    case PASSWORD => "1"
    case PUBLICKEY => "2"
  }

  function MethodOf(text: string): Method {
    if text == "1" then PASSWORD else if text == "2" then PUBLICKEY else UNKNOWN
  }

  datatype SSHInfo = SSHInfo(
    host: Host, userName: string, password: string, publicKey: string, privateKey: string,
    passphrase: string, currentMethod: Method)

  /** operator==, which does not look at the method. */
  predicate Same(r: SSHInfo, l: SSHInfo) {
    && r.host == l.host && r.password == l.password && r.publicKey == l.publicKey
    && r.privateKey == l.privateKey && r.passphrase == l.passphrase && r.userName == l.userName
  }

  /** It holds exactly of objects that differ in the method at most. */
  lemma SameButMethod(r: SSHInfo, l: SSHInfo)
    ensures Same(r, l) <==> r == l.(currentMethod := r.currentMethod)
  {
  }

  ghost predicate Clean(s: SSHInfo) {
    NoCrLf(s.userName) && NoCrLf(s.password) && NoCrLf(s.publicKey) && NoCrLf(s.privateKey) && NoCrLf(s.passphrase)
  }

  lemma EmptyIsClean(host: Host, m: Method)
    ensures Clean(SSHInfo(host, "", "", "", "", "", m))
  {
  }

  function Print(s: SSHInfo, codec: HostCodec): string {
    Line("host", codec.print_(s.host)) + CRLF + Line("user", s.userName) + CRLF
    + Line("password", s.password) + CRLF + Line("publicKey", s.publicKey) + CRLF
    + Line("privateKey", s.privateKey) + CRLF + Line("passphrase", s.passphrase) + CRLF
    + Line("currentMethod", MethodText(s.currentMethod)) + CRLF
  }

  function SetField(s: SSHInfo, field: string, value: string, codec: HostCodec): SSHInfo {
    if field == "host" then s.(host := codec.parse(value))
    else if field == "user" then s.(userName := value)
    else if field == "password" then s.(password := value)
    else if field == "publicKey" then s.(publicKey := value)
    else if field == "privateKey" then s.(privateKey := value)
    else if field == "passphrase" then s.(passphrase := value)
    else if field == "currentMethod" then s.(currentMethod := MethodOf(value))
    else s
  }

  /** What one line of the text does to the object under construction. */
  function Assign(s: SSHInfo, line: string, codec: HostCodec): SSHInfo {
    var d := IndexOf(line, ':');
    if d >= |line| then s else SetField(s, line[..d], line[d + 1..], codec)
  }

  function AssignAll(s: SSHInfo, lines: seq<string>, codec: HostCodec): SSHInfo
    decreases |lines|
  {
    if lines == [] then s else Assign(AssignAll(s, lines[..|lines| - 1], codec), lines[|lines| - 1], codec)
  }

  /** SSHInfo(text), starting from the default object `d`. */
  function Parse(text: string, d: SSHInfo, codec: HostCodec): SSHInfo { AssignAll(d, Lines(text), codec) }

  /** The constructor from text: a loop over text.find(MARKER, start). */
  method FromText(text: string, d: SSHInfo, codec: HostCodec) returns (s: SSHInfo)
    ensures s == Parse(text, d, codec)
  {
    hide FindCrLf, Lines, Assign, AssignAll;
    s := d;
    var start := 0;
    var pos := FindCrLf(text, start);
    ghost var done: seq<string> := [];
    assert text[0..] == text;
    AssignNone(d, codec);
    while pos < |text|
      invariant start <= |text| && pos == FindCrLf(text, start)
      invariant done + Lines(text[start..]) == Lines(text) && s == AssignAll(d, done, codec)
      decreases |text| - start
    {
      LinesFrom(text, start);
      var line := text[start..pos];
      s := Assign(s, line, codec);
      AssignOneMore(d, done, line, codec);
      done := done + [line];
      start := pos + 2;
      pos := FindCrLf(text, start);
    }
    LinesFrom(text, start);
    assert done + [] == done;
  }

  lemma AssignNone(d: SSHInfo, codec: HostCodec)
    ensures AssignAll(d, [], codec) == d
  {
  }

  lemma AssignOneMore(d: SSHInfo, done: seq<string>, line: string, codec: HostCodec)
    ensures AssignAll(d, done + [line], codec) == Assign(AssignAll(d, done, codec), line, codec)
  {
    assert (done + [line])[..|done|] == done;
  }

  // ----- round trip -----

  /** The seven lines of the printed form. */
  function PrintedLines(s: SSHInfo, codec: HostCodec): seq<string> {
    [Line("host", codec.print_(s.host)), Line("user", s.userName), Line("password", s.password),
     Line("publicKey", s.publicKey), Line("privateKey", s.privateKey), Line("passphrase", s.passphrase),
     Line("currentMethod", MethodText(s.currentMethod))]
  }

  lemma SevenLines(l0: string, l1: string, l2: string, l3: string, l4: string, l5: string, l6: string)
    ensures Unlines([l0, l1, l2, l3, l4, l5, l6])
         == l0 + CRLF + l1 + CRLF + l2 + CRLF + l3 + CRLF + l4 + CRLF + l5 + CRLF + l6 + CRLF
  {
    hide Unlines;
    var ls := [l0, l1, l2, l3, l4, l5, l6];
    UnlinesNext(ls, 0);
    UnlinesNext(ls, 1);
    UnlinesNext(ls, 2);
    UnlinesNext(ls, 3);
    UnlinesNext(ls, 4);
    UnlinesNext(ls, 5);
    UnlinesNext(ls, 6);
    assert "" + l0 == l0;
    assert ls[..7] == ls;
  }

  lemma PrintIsUnlines(s: SSHInfo, codec: HostCodec)
    ensures Print(s, codec) == Unlines(PrintedLines(s, codec))
  {
    hide Line, MethodText;
    SevenLines(Line("host", codec.print_(s.host)), Line("user", s.userName), Line("password", s.password),
               Line("publicKey", s.publicKey), Line("privateKey", s.privateKey), Line("passphrase", s.passphrase),
               Line("currentMethod", MethodText(s.currentMethod)));
  }

  lemma AssignLine(s: SSHInfo, field: string, value: string, codec: HostCodec)
    requires ':' !in field
    ensures Assign(s, Line(field, value), codec) == SetField(s, field, value, codec)
  {
    IndexOfFirst(field, ':', value);
    assert field + [':'] + value == Line(field, value);
    assert Line(field, value)[..|field|] == field && Line(field, value)[|field| + 1..] == value;
  }

  lemma FieldNames(s: SSHInfo, v: string, codec: HostCodec)
    ensures SetField(s, "host", v, codec) == s.(host := codec.parse(v))
    ensures SetField(s, "user", v, codec) == s.(userName := v)
    ensures SetField(s, "password", v, codec) == s.(password := v)
    ensures SetField(s, "publicKey", v, codec) == s.(publicKey := v)
    ensures SetField(s, "privateKey", v, codec) == s.(privateKey := v)
    ensures SetField(s, "passphrase", v, codec) == s.(passphrase := v)
    ensures SetField(s, "currentMethod", v, codec) == s.(currentMethod := MethodOf(v))
  {
  }

  /** What a text of one line sets; any other line sets nothing. */
  lemma OneField(d: SSHInfo, field: string, v: string, codec: HostCodec)
    requires NoCrLf(v) && ':' !in field && '\r' !in field
    ensures Parse(field + ":" + v + "\r\n", d, codec) ==
            if field == "host" then d.(host := codec.parse(v))
            else if field == "user" then d.(userName := v)
            else if field == "password" then d.(password := v)
            else if field == "publicKey" then d.(publicKey := v)
            else if field == "privateKey" then d.(privateKey := v)
            else if field == "passphrase" then d.(passphrase := v)
            else if field == "currentMethod" then
              d.(currentMethod := if v == "1" then PASSWORD else if v == "2" then PUBLICKEY else UNKNOWN)
            else d
  {
    var l := Line(field, v);
    LineIsClean(field, v);
    hide Lines, AssignAll, Assign;
    LinesOfLine(l, "");
    EmptyHasNoLines();
    assert l + CRLF + "" == field + ":" + v + "\r\n";
    assert [l] + [] == [] + [l];
    AssignNone(d, codec);
    AssignOneMore(d, [], l, codec);
    AssignLine(d, field, v, codec);
  }

  /** Assigning all seven lines leaves nothing of the object one starts from; six leave the method. */
  lemma AssignPrinted(s: SSHInfo, d: SSHInfo, codec: HostCodec)
    requires Inverse(codec)
    ensures AssignAll(d, PrintedLines(s, codec)[..6], codec) == s.(currentMethod := d.currentMethod)
    ensures AssignAll(d, PrintedLines(s, codec), codec) == s
  {
    hide SetField, Line, MethodText, MethodOf, AssignAll;
    var ls := PrintedLines(s, codec);
    AssignNone(d, codec);
    assert ls[..0] == [];
    var d1 := d.(host := s.host);
    var d2 := d1.(userName := s.userName);
    var d3 := d2.(password := s.password);
    var d4 := d3.(publicKey := s.publicKey);
    var d5 := d4.(privateKey := s.privateKey);
    var d6 := d5.(passphrase := s.passphrase);
    FieldNames(d, codec.print_(s.host), codec);
    NextLine(d, ls, 0, codec, d, "host", codec.print_(s.host));
    FieldNames(d1, s.userName, codec);
    NextLine(d, ls, 1, codec, d1, "user", s.userName);
    FieldNames(d2, s.password, codec);
    NextLine(d, ls, 2, codec, d2, "password", s.password);
    FieldNames(d3, s.publicKey, codec);
    NextLine(d, ls, 3, codec, d3, "publicKey", s.publicKey);
    FieldNames(d4, s.privateKey, codec);
    NextLine(d, ls, 4, codec, d4, "privateKey", s.privateKey);
    FieldNames(d5, s.passphrase, codec);
    NextLine(d, ls, 5, codec, d5, "passphrase", s.passphrase);
    FieldNames(d6, MethodText(s.currentMethod), codec);
    NextLine(d, ls, 6, codec, d6, "currentMethod", MethodText(s.currentMethod));
    MethodRoundTrip(s.currentMethod);
    assert ls[..7] == ls;
  }

  lemma MethodRoundTrip(m: Method)
    ensures MethodOf(MethodText(m)) == m && NoCrLf(MethodText(m))
    ensures IsDigits(MethodText(m)) && DigitsValue(MethodText(m)) < 3
    ensures [UNKNOWN, PASSWORD, PUBLICKEY][DigitsValue(MethodText(m))] == m
  {
    assert MethodText(m)[..0] == "";
  }

  lemma NextLine(d: SSHInfo, ls: seq<string>, k: nat, codec: HostCodec, before: SSHInfo, field: string, value: string)
    requires k < |ls| && ls[k] == Line(field, value) && ':' !in field
    requires AssignAll(d, ls[..k], codec) == before
    ensures AssignAll(d, ls[..k + 1], codec) == SetField(before, field, value, codec)
  {
    AssignLine(before, field, value, codec);
    assert ls[..k + 1][..k] == ls[..k];
  }

  lemma PrintedLinesAreClean(s: SSHInfo, codec: HostCodec)
    requires Inverse(codec) && Clean(s)
    ensures forall l :: l in PrintedLines(s, codec) ==> NoCrLf(l)
  {
    MethodRoundTrip(s.currentMethod);
    LineIsClean("host", codec.print_(s.host));
    LineIsClean("user", s.userName);
    LineIsClean("password", s.password);
    LineIsClean("publicKey", s.publicKey);
    LineIsClean("privateKey", s.privateKey);
    LineIsClean("passphrase", s.passphrase);
    LineIsClean("currentMethod", MethodText(s.currentMethod));
  }

  /** Without the final character of its text an SSHInfo comes back with everything but the method. */
  lemma RoundTripWithoutLastChar(s: SSHInfo, d: SSHInfo, codec: HostCodec)
    requires Inverse(codec) && Clean(s)
    ensures var text := Print(s, codec);
            text != "" && Parse(text[..|text| - 1], d, codec) == s.(currentMethod := d.currentMethod)
  {
    var ls := PrintedLines(s, codec);
    PrintIsUnlines(s, codec);
    PrintedLinesAreClean(s, codec);
    AssignPrinted(s, d, codec);
    hide PrintedLines, Print;
    LinesWithoutLastChar(ls);
  }

  lemma {:induction false} AssignKeepsClean(s: SSHInfo, lines: seq<string>, codec: HostCodec)
    requires Clean(s) && forall l :: l in lines ==> NoCrLf(l)
    ensures Clean(AssignAll(s, lines, codec))
    decreases |lines|
  {
    if lines != [] {
      var line := lines[|lines| - 1];
      AssignKeepsClean(s, lines[..|lines| - 1], codec);
      var d := IndexOf(line, ':');
      if d < |line| {
        SuffixIsClean(line, d + 1);
      }
    }
  }

  /** Printing and parsing restores all seven fields exactly when no text field contains a CRLF. */
  lemma RoundTrip(s: SSHInfo, d: SSHInfo, codec: HostCodec)
    requires Inverse(codec) && Clean(d)
    ensures Parse(Print(s, codec), d, codec) == s <==> Clean(s)
  {
    var ls := PrintedLines(s, codec);
    if Clean(s) {
      PrintIsUnlines(s, codec);
      PrintedLinesAreClean(s, codec);
      LinesOfUnlines(ls, "");
      assert Unlines(ls) + "" == Unlines(ls) && ls + Lines("") == ls;
      AssignPrinted(s, d, codec);
    } else {
      LinesAreClean(Print(s, codec));
      AssignKeepsClean(d, Lines(Print(s, codec)), codec);
    }
  }

  lemma {:induction false} AssignConcat(d: SSHInfo, a: seq<string>, b: seq<string>, codec: HostCodec)
    ensures AssignAll(d, a + b, codec) == AssignAll(AssignAll(d, a, codec), b, codec)
    decreases |b|
  {
    hide Assign;
    if b == [] {
      assert a + b == a;
    } else {
      var c := b[..|b| - 1];
      assert (a + b)[..|a + b| - 1] == a + c;
      AssignConcat(d, a, c, codec);
    }
  }

  /** The six lines after the address set everything else. */
  lemma AllButHost(s: SSHInfo, d: SSHInfo, codec: HostCodec)
    requires Inverse(codec)
    ensures AssignAll(d, PrintedLines(s, codec)[1..], codec) == s.(host := d.host)
  {
    var t, l0 := s.(host := d.host), Line("host", codec.print_(d.host));
    var rest := PrintedLines(s, codec)[1..];
    hide Line, MethodText, SetField, AssignAll;
    AssignPrinted(t, d, codec);
    assert PrintedLines(t, codec) == [l0] + rest;
    hide PrintedLines;
    AssignConcat(d, [l0], rest, codec);
    AssignNone(d, codec);
    AssignOneMore(d, [], l0, codec);
    assert [] + [l0] == [l0];
    AssignLine(d, "host", codec.print_(d.host), codec);
    FieldNames(d, codec.print_(d.host), codec);
  }

  /** When other text comes before the printed one, only the address can be spoiled: the other fields
      are assigned by lines of their own. */
  lemma RoundTripAfter(prefix: string, s: SSHInfo, d: SSHInfo, codec: HostCodec)
    requires Inverse(codec) && Clean(d)
    ensures Parse(prefix + Print(s, codec), d, codec) == s
       <==> Clean(s) && Parse(prefix + Line("host", codec.print_(s.host)) + CRLF, d, codec).host == s.host
  {
    var l0, ls := Line("host", codec.print_(s.host)), PrintedLines(s, codec);
    if Clean(s) {
      PrintIsUnlines(s, codec);
      PrintedLinesAreClean(s, codec);
      assert Unlines(ls) == l0 + CRLF + Unlines(ls[1..]);
      hide Print, PrintedLines, Line, Unlines, Lines, AssignAll;
      assert prefix + Print(s, codec) == (prefix + l0) + CRLF + Unlines(ls[1..]);
      LinesOfConcat(prefix + l0, Unlines(ls[1..]));
      LinesOfUnlines(ls[1..], "");
      EmptyHasNoLines();
      assert Unlines(ls[1..]) + "" == Unlines(ls[1..]) && ls[1..] + [] == ls[1..];
      var first := Lines(prefix + l0 + CRLF);
      AssignConcat(d, first, ls[1..], codec);
      AllButHost(s, AssignAll(d, first, codec), codec);
    } else {
      LinesAreClean(prefix + Print(s, codec));
      AssignKeepsClean(d, Lines(prefix + Print(s, codec)), codec);
    }
  }
}
