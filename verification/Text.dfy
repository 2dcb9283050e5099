/** Text helpers shared by the printers and parsers: std::string::find and substr, decimal numbers. */
module Text {
  import opened Sequences

  datatype Option<+T> = None | Some(value: T)

  const CRLF := "\r\n"

  // ----- lines that end in CRLF -----

  /** "\r\n" begins at index i. */
  predicate CrLfAt(s: string, i: nat) { i + 1 < |s| && s[i] == '\r' && s[i + 1] == '\n' }

  ghost predicate NoCrLf(s: string) { forall i: nat :: i < |s| ==> !CrLfAt(s, i) }

  /** text.find("\r\n", start); |text| stands for npos. */
  function FindCrLf(s: string, start: nat): (pos: nat)
    ensures pos < |s| ==> pos >= start && CrLfAt(s, pos)
    ensures forall i: nat :: start <= i < |s| && CrLfAt(s, i) ==> pos <= i
    decreases |s| - start
  {
    if start >= |s| then |s|
    else if CrLfAt(s, start) then start
    else FindCrLf(s, start + 1)
  }

  /** The lines of a text; what follows the last CRLF is not a line. */
  function Lines(s: string): seq<string>
    decreases |s|
  {
    var pos := FindCrLf(s, 0);
    if pos >= |s| then [] else [s[..pos]] + Lines(s[pos + 2..])
  }

  lemma FindFrom(s: string, start: nat)
    requires start <= |s|
    ensures FindCrLf(s, start) == start + FindCrLf(s[start..], 0) <= |s|
  {
    var t := s[start..];
    var p, q := FindCrLf(t, 0), FindCrLf(s, start);
    FindAtMost(t, 0);
    FindAtMost(s, start);
    assert p < |t| ==> CrLfAt(s, p + start);
    assert q < |s| ==> CrLfAt(t, q - start);
  }

  lemma FindAtMost(s: string, start: nat)
    ensures FindCrLf(s, start) <= |s|
    decreases |s| - start
  {
  }

  lemma LinesStep(s: string)
    ensures var pos := FindCrLf(s, 0);
            if pos >= |s| then Lines(s) == [] else pos + 2 <= |s| && Lines(s) == [s[..pos]] + Lines(s[pos + 2..])
  {
  }

  lemma Slices(s: string, start: nat, pos: nat)
    requires start <= pos && pos + 2 <= |s|
    ensures s[start..][..pos - start] == s[start..pos] && s[start..][pos - start + 2..] == s[pos + 2..]
  {
  }

  /** Reading the lines of s[start..] one by one with FindCrLf on the whole text. */
  lemma LinesFrom(s: string, start: nat)
    requires start <= |s|
    ensures var pos := FindCrLf(s, start);
            Lines(s[start..]) == if pos >= |s| then [] else [s[start..pos]] + Lines(s[pos + 2..])
  {
    hide *;
    FindFrom(s, start);
    LinesStep(s[start..]);
    var p := FindCrLf(s[start..], 0);
    if start + p < |s| {
      Slices(s, start, start + p);
    }
  }

  lemma LinesOfLine(l: string, rest: string)
    requires NoCrLf(l)
    ensures Lines(l + CRLF + rest) == [l] + Lines(rest)
  {
    var s := l + CRLF + rest;
    assert CrLfAt(s, |l|);
    assert FindCrLf(s, 0) == |l| by {
      forall i: nat | i < |l| ensures !CrLfAt(s, i) {
        assert !CrLfAt(l, i);
      }
    }
    assert s[..|l|] == l && s[|l| + 2..] == rest;
  }

  lemma EmptyHasNoLines()
    ensures Lines("") == []
  {
  }

  lemma SplitAtCrLf(a: string) returns (l: string, rest: string)
    requires !NoCrLf(a)
    ensures a == l + CRLF + rest && NoCrLf(l) && |rest| < |a|
  {
    var p := FindCrLf(a, 0);
    l, rest := a[..p], a[p + 2..];
    forall i: nat | i < |l| ensures !CrLfAt(l, i) {
      assert CrLfAt(l, i) ==> CrLfAt(a, i);
    }
  }

  /** A text that ends in CRLF contributes its own lines. */
  lemma {:induction false} LinesOfConcat(a: string, b: string)
    ensures Lines(a + CRLF + b) == Lines(a + CRLF) + Lines(b)
    decreases |a|
  {
    if NoCrLf(a) {
      hide Lines;
      LinesOfLine(a, b);
      LinesOfLine(a, "");
      EmptyHasNoLines();
      assert a + CRLF + "" == a + CRLF;
    } else {
      var l, rest := SplitAtCrLf(a);
      hide Lines, NoCrLf;
      LinesOfConcat(rest, b);
      LinesOfLine(l, rest + CRLF);
      LinesOfLine(l, rest + CRLF + b);
      Assoc(l + CRLF, rest, CRLF);
      Assoc(l + CRLF, rest + CRLF, b);
      Assoc([l], Lines(rest + CRLF), Lines(b));
    }
  }

  lemma NoLines(s: string)
    requires NoCrLf(s)
    ensures Lines(s) == []
  {
  }

  lemma {:induction false} LinesAreClean(s: string)
    ensures forall l :: l in Lines(s) ==> NoCrLf(l)
    decreases |s|
  {
    var pos := FindCrLf(s, 0);
    if pos < |s| {
      LinesAreClean(s[pos + 2..]);
      forall i: nat | i < pos ensures !CrLfAt(s[..pos], i) {
        assert CrLfAt(s[..pos], i) ==> CrLfAt(s, i);
      }
    }
  }

  /** Lines have no character that the text does not have. */
  lemma {:induction false} LinesLack(s: string, c: char)
    requires c !in s
    ensures forall l :: l in Lines(s) ==> c !in l
    decreases |s|
  {
    var pos := FindCrLf(s, 0);
    hide FindCrLf;
    if pos < |s| {
      LinesLack(s[pos + 2..], c);
    }
  }

  lemma SuffixIsClean(s: string, k: nat)
    requires NoCrLf(s) && k <= |s|
    ensures NoCrLf(s[k..])
  {
    forall i: nat | i < |s[k..]| ensures !CrLfAt(s[k..], i) {
      assert CrLfAt(s[k..], i) ==> CrLfAt(s, k + i);
    }
  }

  /** A label without CR in front does not create a CRLF. */
  lemma LabelledIsClean(prefix: string, s: string)
    requires NoCrLf(s) && forall i :: 0 <= i < |prefix| ==> prefix[i] != '\r'
    ensures NoCrLf(prefix + s)
  {
    forall i: nat | i < |prefix + s| ensures !CrLfAt(prefix + s, i) {
      if i >= |prefix| {
        assert CrLfAt(prefix + s, i) ==> CrLfAt(s, i - |prefix|);
      }
    }
  }

  // ----- printing lines -----

  function Line(field: string, value: string): string { field + ":" + value }

  function Unlines(ls: seq<string>): string {
    if ls == [] then "" else ls[0] + CRLF + Unlines(ls[1..])
  }

  lemma UnlinesNext(ls: seq<string>, k: nat)
    requires k < |ls|
    ensures Unlines(ls[..0]) == ""
    ensures Unlines(ls[..k + 1]) == Unlines(ls[..k]) + ls[k] + CRLF
  {
    UnlinesLast(ls[..k + 1]);
    assert ls[..k + 1][..k] == ls[..k];
  }

  lemma {:induction false} LinesOfUnlines(ls: seq<string>, rest: string)
    requires forall l :: l in ls ==> NoCrLf(l)
    ensures Lines(Unlines(ls) + rest) == ls + Lines(rest)
    decreases |ls|
  {
    if ls == [] {
      assert Unlines(ls) + rest == rest;
    } else {
      LinesOfUnlines(ls[1..], rest);
      LinesOfLine(ls[0], Unlines(ls[1..]) + rest);
      assert Unlines(ls) + rest == ls[0] + CRLF + (Unlines(ls[1..]) + rest);
      assert ls == [ls[0]] + ls[1..];
    }
  }

  lemma LineIsClean(field: string, value: string)
    requires NoCrLf(value) && '\r' !in field
    ensures NoCrLf(Line(field, value))
  {
    LabelledIsClean(field + ":", value);
  }

  lemma ReturnIsClean(l: string)
    requires NoCrLf(l)
    ensures NoCrLf(l + "\r")
  {
    forall i: nat | i < |l + "\r"| ensures !CrLfAt(l + "\r", i) {
      assert i < |l| ==> !CrLfAt(l, i);
    }
  }

  lemma LinesWithoutLastChar(ls: seq<string>)
    requires ls != [] && forall l :: l in ls ==> NoCrLf(l)
    ensures var text := Unlines(ls);
            text != "" && Lines(text[..|text| - 1]) == ls[..|ls| - 1]
  {
    var n, text := |ls| - 1, Unlines(ls);
    var last := ls[n] + "\r";
    assert ls[n] in ls && forall l :: l in ls[..n] ==> l in ls;
    hide Unlines, Lines, NoCrLf;
    UnlinesLast(ls);
    Assoc(Unlines(ls[..n]), ls[n], CRLF);
    assert ls[n] + CRLF == last + "\n";
    Assoc(Unlines(ls[..n]), last, "\n");
    assert text[..|text| - 1] == Unlines(ls[..n]) + last;
    LinesOfUnlines(ls[..n], last);
    ReturnIsClean(ls[n]);
    NoLines(last);
    assert ls[..n] + [] == ls[..n];
  }

  lemma {:induction false} UnlinesLast(ls: seq<string>)
    requires ls != []
    ensures Unlines(ls) == Unlines(ls[..|ls| - 1]) + ls[|ls| - 1] + CRLF
    decreases |ls|
  {
    var n := |ls| - 1;
    if n > 0 {
      UnlinesLast(ls[1..]);
      assert ls[1..][..n - 1] == ls[..n][1..];
      calc {
        Unlines(ls);
        ls[0] + CRLF + (Unlines(ls[..n][1..]) + ls[n] + CRLF);
        (ls[0] + CRLF + Unlines(ls[..n][1..])) + ls[n] + CRLF;
        Unlines(ls[..n]) + ls[n] + CRLF;
      }
    } else {
      assert Unlines(ls[1..]) == "" && Unlines(ls[..0]) == "";
    }
  }

  // ----- splitting at a character -----

  /** Index of the first `c`, or |s|. */
  function IndexOf(s: string, c: char): (n: nat)
    ensures n <= |s|
    ensures forall i :: 0 <= i < n ==> s[i] != c
    ensures n < |s| ==> s[n] == c
  {
    if s == "" || s[0] == c then 0 else 1 + IndexOf(s[1..], c)
  }

  lemma IndexOfFirst(a: string, c: char, b: string)
    requires c !in a
    ensures IndexOf(a + [c] + b, c) == |a|
  {
    var s := a + [c] + b;
    assert s[|a|] == c;
    forall i | 0 <= i < |a| ensures s[i] != c {
      assert s[i] == a[i];
    }
  }

  // ----- decimal numbers -----

  function Digit(d: nat): (c: char)
    requires d < 10
  {
    '0' + d as char
  }

  function DigitValue(c: char): nat
    requires '0' <= c <= '9'
  {
    (c as int) - ('0' as int)
  }

  function PrintNat(n: nat): (s: string)
    ensures s != "" && forall i :: 0 <= i < |s| ==> '0' <= s[i] <= '9'
  {
    if n < 10 then [Digit(n)] else PrintNat(n / 10) + [Digit(n % 10)]
  }

  predicate IsDigits(s: string) { s != "" && forall i :: 0 <= i < |s| ==> '0' <= s[i] <= '9' }

  /** The value of a string of digits. */
  function DigitsValue(s: string): nat
    requires forall i :: 0 <= i < |s| ==> '0' <= s[i] <= '9'
  {
    if s == "" then 0
    else
      10 * DigitsValue(s[..|s| - 1]) + DigitValue(s[|s| - 1])
  }

  lemma {:induction false} ParsePrintNat(n: nat)
    ensures IsDigits(PrintNat(n)) && DigitsValue(PrintNat(n)) == n
    decreases n
  {
    if n >= 10 {
      ParsePrintNat(n / 10);
      var s := PrintNat(n);
      assert s[..|s| - 1] == PrintNat(n / 10);
    } else {
      assert PrintNat(n)[..0] == "";
    }
  }

  lemma {:induction false} AtLeastDigit(s: string)
    requires IsDigits(s) && s[0] != '0'
    ensures DigitsValue(s) > 0
    decreases |s|
  {
    if |s| > 1 {
      AtLeastDigit(s[..|s| - 1]);
    }
  }

  /** Digits without a leading zero are printed as they were read. */
  lemma {:induction false} PrintParseNat(s: string)
    requires IsDigits(s) && (|s| == 1 || s[0] != '0')
    ensures PrintNat(DigitsValue(s)) == s
    decreases |s|
  {
    var front, last := s[..|s| - 1], s[|s| - 1];
    assert s == front + [last] && Digit(DigitValue(last)) == last;
    if |s| > 1 {
      PrintParseNat(front);
      AtLeastDigit(front);
      var n := DigitsValue(front);
      assert (10 * n + DigitValue(last)) / 10 == n && (10 * n + DigitValue(last)) % 10 == DigitValue(last);
    } else {
      assert front == "";
    }
  }

  /** A leading zero does not change the number. */
  lemma {:induction false} LeadingZero(s: string)
    requires forall i :: 0 <= i < |s| ==> '0' <= s[i] <= '9'
    ensures DigitsValue("0" + s) == DigitsValue(s)
    decreases |s|
  {
    var t := "0" + s;
    if s == "" {
      assert t[..0] == "";
    } else {
      LeadingZero(s[..|s| - 1]);
      assert t[..|t| - 1] == "0" + s[..|s| - 1];
    }
  }

  /** ConvertFromString for an unsigned number; other text counts as 0. */
  function ParseNat(s: string): nat { if IsDigits(s) then DigitsValue(s) else 0 }

  function PrintInt(n: int): string { if n < 0 then "-" + PrintNat(-n) else PrintNat(n) }

  /** ConvertFromString for a signed number; other text counts as 0. */
  function ParseInt(s: string): int {
    if s != "" && s[0] == '-' then 0 - (ParseNat(s[1..]) as int) else ParseNat(s)
  }

  lemma ParsePrintInt(n: int)
    ensures ParseInt(PrintInt(n)) == n
    ensures forall c :: c in PrintInt(n) ==> c == '-' || '0' <= c <= '9'
  {
    hide PrintNat, DigitsValue;
    var digits := PrintNat(if n < 0 then -n else n);
    ParsePrintNat(if n < 0 then -n else n);
    assert digits[0] in digits;
    if n < 0 {
      assert PrintInt(n) == "-" + digits && PrintInt(n)[1..] == digits;
    }
  }
}
