/** Dispatch of a command line to the command table. */
module Dispatch {
  import opened Text

  // ----- characters and words -----

  function Lower(c: char): (l: char)
    ensures l == ' ' <==> c == ' '
  {
    if 'A' <= c <= 'Z' then c - 'A' + 'a' else c
  }

  /** The two cases of one ASCII letter. */
  predicate TwoCases(upper: char, lower: char) { 'A' <= upper <= 'Z' && lower as int == upper as int + 32 }

  /** Characters count as equal when they are, or when they are the two cases of one ASCII letter. */
  lemma SameLetter(a: char, b: char)
    ensures Lower(a) == Lower(b) <==> a == b || TwoCases(a, b) || TwoCases(b, a)
  {
  }

  /** FullEqualsASCII without regard to case. */
  predicate SameText(a: string, b: string) { |a| == |b| && forall i :: 0 <= i < |a| ==> Lower(a[i]) == Lower(b[i]) }

  predicate IsSpace(c: char) { c == ' ' || '\t' <= c <= '\r' }

  /** count_space */
  function Spaces(s: string): nat { if s == "" then 0 else (if IsSpace(s[0]) then 1 else 0) + Spaces(s[1..]) }

  function Blanks(s: string): nat { if s == "" then 0 else (if s[0] == ' ' then 1 else 0) + Blanks(s[1..]) }

  function JoinBlank(tokens: seq<string>): string
    requires tokens != []
  {
    if |tokens| == 1 then tokens[0] else tokens[0] + [' '] + JoinBlank(tokens[1..])
  }

  function Words(s: string): (ws: seq<string>)
    ensures |ws| >= 1
    decreases |s|
  {
    var n := IndexOf(s, ' ');
    if n >= |s| then [s] else [s[..n]] + Words(s[n + 1..])
  }

  /** The words of a name whose only white space are blanks match the first tokens. */
  predicate Matches(name: string, argv: seq<string>) {
    var ws := Words(name);
    Spaces(name) == Blanks(name) && |ws| <= |argv| && forall i :: 0 <= i < |ws| ==> SameText(argv[i], ws[i])
  }

  lemma {:induction false} BlanksConcat(a: string, b: string)
    ensures Blanks(a + b) == Blanks(a) + Blanks(b)
    decreases |a|
  {
    if a == "" {
      assert a + b == b;
    } else {
      BlanksConcat(a[1..], b);
      assert (a + b)[1..] == a[1..] + b;
    }
  }

  lemma {:induction false} NoBlanks(s: string)
    ensures Blanks(s) == 0 <==> ' ' !in s
    decreases |s|
  {
    if s != "" {
      NoBlanks(s[1..]);
      assert forall c :: c in s <==> c == s[0] || c in s[1..];
    }
  }

  lemma {:induction false} SameBlanks(a: string, b: string)
    requires SameText(a, b)
    ensures Blanks(a) == Blanks(b)
    decreases |a|
  {
    if a != "" {
      assert SameText(a[1..], b[1..]);
      SameBlanks(a[1..], b[1..]);
    }
  }

  lemma {:induction false} BlanksAreSpaces(s: string)
    ensures Blanks(s) <= Spaces(s)
    decreases |s|
  {
    if s != "" {
      BlanksAreSpaces(s[1..]);
    }
  }

  lemma {:induction false} WordCount(s: string)
    ensures |Words(s)| == Blanks(s) + 1
    ensures forall w :: w in Words(s) ==> ' ' !in w
    decreases |s|
  {
    var n := IndexOf(s, ' ');
    if n < |s| {
      WordCount(s[n + 1..]);
      NoBlanks(s[..n]);
      BlanksConcat(s[..n], s[n..]);
      assert s[..n] + s[n..] == s && s[n..][1..] == s[n + 1..];
    } else {
      NoBlanks(s);
    }
  }

  lemma {:induction false} JoinBlanks(tokens: seq<string>)
    requires tokens != []
    ensures Blanks(JoinBlank(tokens)) >= |tokens| - 1
    ensures Blanks(JoinBlank(tokens)) == |tokens| - 1 ==> forall t :: t in tokens ==> ' ' !in t
    decreases |tokens|
  {
    NoBlanks(tokens[0]);
    if |tokens| > 1 {
      JoinBlanks(tokens[1..]);
      BlanksConcat(tokens[0] + [' '], JoinBlank(tokens[1..]));
      BlanksConcat(tokens[0], [' ']);
      assert forall t :: t in tokens <==> t == tokens[0] || t in tokens[1..];
    }
  }

  lemma SameConcat(a: string, b: string, c: string, d: string)
    requires ' ' !in a && ' ' !in c
    ensures SameText(a + [' '] + b, c + [' '] + d) <==> SameText(a, c) && SameText(b, d)
  {
    var l, r := a + [' '] + b, c + [' '] + d;
    assert l[|a|] == ' ' && r[|c|] == ' ';
    assert |a| < |c| ==> r[|a|] == c[|a|];
    assert |c| < |a| ==> l[|c|] == a[|c|];
    if SameText(l, r) {
      assert |a| == |c|;
      forall i | 0 <= i < |a| ensures Lower(a[i]) == Lower(c[i]) {
        assert l[i] == a[i] && r[i] == c[i];
      }
      forall i | 0 <= i < |b| ensures Lower(b[i]) == Lower(d[i]) {
        assert l[|a| + 1 + i] == b[i] && r[|a| + 1 + i] == d[i];
      }
    }
  }

  lemma SameTail(a: seq<string>, b: seq<string>)
    requires |a| == |b| && a != []
    ensures (forall i :: 0 <= i < |a| ==> SameText(a[i], b[i]))
       <==> SameText(a[0], b[0]) && forall i :: 0 <= i < |a| - 1 ==> SameText(a[1..][i], b[1..][i])
  {
    hide SameText;
    assert forall i :: 1 <= i < |a| ==> a[i] == a[1..][i - 1] && b[i] == b[1..][i - 1];
    assert forall i :: 0 <= i < |a| - 1 ==> a[1..][i] == a[i + 1] && b[1..][i] == b[i + 1];
  }

  /** Joined tokens without blanks are the name exactly when they are its words. */
  lemma {:induction false} JoinIsName(tokens: seq<string>, name: string)
    requires |tokens| == |Words(name)| && forall t :: t in tokens ==> ' ' !in t
    ensures SameText(JoinBlank(tokens), name) <==> forall i :: 0 <= i < |tokens| ==> SameText(tokens[i], Words(name)[i])
    decreases |tokens|
  {
    var n, ws := IndexOf(name, ' '), Words(name);
    WordCount(name);
    if n < |name| {
      var rest := name[n + 1..];
      assert ws[0] == name[..n] && ws[1..] == Words(rest) && name == ws[0] + [' '] + rest;
      assert JoinBlank(tokens) == tokens[0] + [' '] + JoinBlank(tokens[1..]);
      assert tokens[0] in tokens && forall t :: t in tokens[1..] ==> t in tokens;
      hide Words, JoinBlank, SameText, IndexOf;
      JoinIsName(tokens[1..], rest);
      SameConcat(tokens[0], JoinBlank(tokens[1..]), ws[0], rest);
      SameTail(tokens, ws);
    }
  }

  /** A token that contains a blank matches no word of any name. */
  lemma BlankNeverMatches(name: string, argv: seq<string>, i: nat)
    requires i < |argv| && i < |Words(name)| && ' ' in argv[i]
    ensures !Matches(name, argv)
  {
    var k :| 0 <= k < |argv[i]| && argv[i][k] == ' ';
    var w := Words(name)[i];
    assert w in Words(name);
    assert SameText(argv[i], w) ==> w[k] == ' ' && ' ' in w;
    WordCount(name);
  }

  /** The same tokens, up to the case of ASCII letters. */
  predicate SameUpToCase(argv: seq<string>, other: seq<string>) {
    && |argv| == |other|
    && forall i :: 0 <= i < |argv| ==>
         && |argv[i]| == |other[i]|
         && forall j :: 0 <= j < |argv[i]| ==>
              var a, b := argv[i][j], other[i][j];
              a == b || TwoCases(a, b) || TwoCases(b, a)
  }

  lemma SameTextEach(argv: seq<string>, other: seq<string>)
    ensures SameUpToCase(argv, other)
       <==> |argv| == |other| && forall i :: 0 <= i < |argv| ==> SameText(argv[i], other[i])
  {
    hide Lower, TwoCases;
    forall a: char, b: char ensures Lower(a) == Lower(b) <==> a == b || TwoCases(a, b) || TwoCases(b, a) {
      SameLetter(a, b);
    }
  }

  lemma SameTextTrans(a: string, b: string, w: string)
    requires SameText(a, b)
    ensures SameText(a, w) <==> SameText(b, w)
  {
  }

  /** The case of ASCII letters on the command line does not matter. */
  lemma CaseDoesNotMatter(name: string, argv: seq<string>, other: seq<string>)
    requires SameUpToCase(argv, other)
    ensures Matches(name, argv) <==> Matches(name, other)
  {
    var ws := Words(name);
    SameTextEach(argv, other);
    hide SameText, Words;
    forall i | 0 <= i < |ws| && |ws| <= |argv|
      ensures SameText(argv[i], ws[i]) <==> SameText(other[i], ws[i])
    {
      SameTextTrans(argv[i], other[i], ws[i]);
    }
  }

  lemma {:induction false} OtherSpace(s: string, i: nat)
    requires i < |s| && '\t' <= s[i] <= '\r'
    ensures Blanks(s) < Spaces(s)
    decreases |s|
  {
    BlanksAreSpaces(s[1..]);
    if i > 0 {
      OtherSpace(s[1..], i - 1);
    }
  }

  /** A name with a tab, a line break or another white space that is no blank matches nothing. */
  lemma OtherSpaceNeverMatches(name: string, argv: seq<string>, i: nat)
    requires i < |name| && '\t' <= name[i] <= '\r'
    ensures !Matches(name, argv)
  {
    OtherSpace(name, i);
  }

  /** What IsCommand compares, against what it means. */
  lemma MergedMatches(name: string, argv: seq<string>)
    requires |argv| > Spaces(name)
    ensures SameText(JoinBlank(argv[..Spaces(name) + 1]), name) <==> Matches(name, argv)
  {
    var k := Spaces(name) + 1;
    var tokens := argv[..k];
    BlanksAreSpaces(name);
    WordCount(name);
    JoinBlanks(tokens);
    if SameText(JoinBlank(tokens), name) {
      SameBlanks(JoinBlank(tokens), name);
      JoinIsName(tokens, name);
      assert forall i :: 0 <= i < k ==> tokens[i] == argv[i];
    } else if Matches(name, argv) {
      forall t | t in tokens ensures ' ' !in t {
        var i :| 0 <= i < |tokens| && tokens[i] == t;
        if ' ' in argv[i] {
          BlankNeverMatches(name, argv, i);
        }
      }
      JoinIsName(tokens, name);
    }
  }

  // ----- the table -----

  class CommandHolder {
    const name: string
    const required: nat
    const optional: nat
    const whiteSpaces: nat

    constructor (name: string, required: nat, optional: nat)
      ensures this.name == name && this.required == required && this.optional == optional
      ensures whiteSpaces == Spaces(name)
    {
      this.name, this.required, this.optional, this.whiteSpaces := name, required, optional, Spaces(name);
    }

    /** The CHECK of IsCommand. */
    predicate Checked(argv: seq<string>) { argv == [] || |argv| >= whiteSpaces }

    method IsCommand(argv: seq<string>) returns (found: bool, offset: nat)
      requires whiteSpaces == Spaces(name) && Checked(argv)
      ensures found == Matches(name, argv)
      ensures found ==> offset == |Words(name)| <= |argv|
    {
      offset := 0;
      WordCount(name);
      if argv == [] {
        return false, 0;
      }
      if |argv| == whiteSpaces {
        return false, 0;
      }
      var merged: seq<string> := [];
      var i := 0;
      while i < whiteSpaces + 1
        invariant i <= whiteSpaces + 1 && merged == argv[..i]
      {
        merged := merged + [argv[i]];
        i := i + 1;
      }
      MergedMatches(name, argv);
      if !SameText(JoinBlank(merged), name) {
        return false, 0;
      }
      return true, whiteSpaces + 1;
    }
  }

  datatype Reply = Called(index: nat, args: seq<string>) | BadArity(index: nat, passed: nat) | UnknownSequence

  ghost predicate First(commands: seq<CommandHolder>, argv: seq<string>, k: nat) {
    k < |commands| && Matches(commands[k].name, argv) && forall j :: 0 <= j < k ==> !Matches(commands[j].name, argv)
  }

  /** At most one entry is called: the order of the table decides between names that match alike. */
  lemma OneFirst(commands: seq<CommandHolder>, argv: seq<string>, k: nat, l: nat)
    requires First(commands, argv, k) && First(commands, argv, l)
    ensures k == l
  {
    hide Matches;
  }

  /** Every entry was made by the constructor. */
  ghost predicate Built(commands: seq<CommandHolder>) {
    forall k :: 0 <= k < |commands| ==> commands[k].whiteSpaces == Spaces(commands[k].name)
  }

  /** No entry that is tried trips the CHECK. */
  ghost predicate Ready(commands: seq<CommandHolder>, argv: seq<string>) {
    && Built(commands)
    && (forall k :: 0 <= k < |commands| && (forall j :: 0 <= j < k ==> !Matches(commands[j].name, argv)) ==>
          commands[k].Checked(argv))
  }

  lemma {:induction false} LongToken(commands: seq<CommandHolder>) returns (t: string)
    ensures forall k :: 0 <= k < |commands| ==> |commands[k].name| < |t|
    decreases |commands|
  {
    if commands == [] {
      t := "";
    } else {
      var n := |commands| - 1;
      var s := LongToken(commands[..n]);
      t := s + commands[n].name + "x";
      forall k | 0 <= k < |commands| ensures |commands[k].name| < |t| {
        assert k < n ==> |commands[..n][k].name| < |s|;
      }
    }
  }

  lemma {:induction false} WordsAreShort(s: string)
    ensures forall w :: w in Words(s) ==> |w| <= |s|
    decreases |s|
  {
    var n := IndexOf(s, ' ');
    if n < |s| {
      WordsAreShort(s[n + 1..]);
    }
  }

  lemma LongTokenMatchesNothing(name: string, t: string)
    requires |name| < |t|
    ensures !Matches(name, [t])
  {
    WordsAreShort(name);
    assert Words(name)[0] in Words(name);
  }

  /** No command line trips the CHECK exactly when every name has one or two words. */
  lemma NeverTripsIff(commands: seq<CommandHolder>)
    requires Built(commands)
    ensures (forall argv :: Ready(commands, argv))
       <==> forall k :: 0 <= k < |commands| ==> Spaces(commands[k].name) <= 1
  {
    hide Matches, Spaces;
    if k :| 0 <= k < |commands| && Spaces(commands[k].name) > 1 {
      var t := LongToken(commands);
      forall j | 0 <= j < |commands| ensures !Matches(commands[j].name, [t]) {
        LongTokenMatchesNothing(commands[j].name, t);
      }
      assert !commands[k].Checked([t]);
      assert !Ready(commands, [t]);
    }
  }

  /** For instance a table with a name of three words can be tripped. */
  lemma LongNamesAreNot(command: CommandHolder)
    requires command.name == "A B C" && command.whiteSpaces == Spaces(command.name)
    ensures exists argv :: !Ready([command], argv)
  {
    assert Spaces("A B C") == 2 by {
      assert "A B C"[1..] == " B C" && " B C"[1..] == "B C" && "B C"[1..] == " C" && " C"[1..] == "C" && "C"[1..] == "";
    }
    NeverTripsIff([command]);
    assert Spaces([command][0].name) == 2;
  }

  /** CommandHandler::Execute: the first entry whose words match, with the tokens after them, when
      their number is allowed. */
  method Execute(commands: seq<CommandHolder>, argv: seq<string>) returns (r: Reply)
    requires Ready(commands, argv)
    ensures r.UnknownSequence? <==> forall k :: 0 <= k < |commands| ==> !Matches(commands[k].name, argv)
    ensures !r.UnknownSequence? ==> First(commands, argv, r.index)
    ensures !r.UnknownSequence? ==>
              var c := commands[r.index];
              var words := |Words(c.name)|;
              var n := |argv| - words;
              && words <= |argv|
              && r == if c.required <= n <= c.required + c.optional then Called(r.index, argv[words..])
                      else BadArity(r.index, n)
  {
    var k := 0;
    while k < |commands|
      invariant k <= |commands| && forall j :: 0 <= j < k ==> !Matches(commands[j].name, argv)
    {
      var cmd := commands[k];
      var found, off := cmd.IsCommand(argv);
      if found {
        var argc := |argv| - off;
        var max := cmd.required + cmd.optional;
        var min := cmd.required;
        if argc > max || argc < min {
          return BadArity(k, argc);
        }
        return Called(k, argv[off..]);
      }
      k := k + 1;
    }
    return UnknownSequence;
  }
}
