/** Lines, tokens and field values of HTTP messages (sections 2 and 5 of RFC 9112). */
module HttpText {
  import opened Decimal

  const CRLF: string := "\r\n"
  const BLANK: string := "\r\n\r\n"

  // ---- finding the end of the header ----

  /** The first position of an empty line, or -1. */
  function Find(s: string): (i: int)
    ensures -1 <= i <= |s| - 4 || i == -1
    ensures i >= 0 ==> s[i..i + 4] == BLANK
  {
    if |s| < 4 then -1
    else if s[..4] == BLANK then 0
    else
      var i := Find(s[1..]);
      if i < 0 then -1 else i + 1
  }

  lemma {:induction false} FindFirst(s: string, k: nat)
    requires k + 4 <= |s| && s[k..k + 4] == BLANK
    ensures 0 <= Find(s) <= k
  {
    if s[..4] != BLANK {
      assert s[1..][k - 1..k + 3] == s[k..k + 4];
      FindFirst(s[1..], k - 1);
    }
  }

  lemma SamePlace(s: string, n: nat, k: nat)
    requires k + 4 <= n <= |s|
    ensures s[..n][k..k + 4] == s[k..k + 4]
  {}

  /** A longer text has the empty line at the same place; a shorter one does not have it yet. */
  lemma FindPrefix(s: string, n: nat)
    requires n <= |s|
    ensures Find(s[..n]) == if 0 <= Find(s) <= n - 4 then Find(s) else -1
  {
    hide Find;
    var e, f := Find(s), Find(s[..n]);
    if f >= 0 {
      SamePlace(s, n, f);
      FindFirst(s, f);
    }
    if 0 <= e <= n - 4 {
      SamePlace(s, n, e);
      FindFirst(s[..n], e);
    }
  }

  // ---- lines ----

  predicate NoBreak(s: string) {
    forall i | 0 <= i < |s| :: s[i] != '\r' && s[i] != '\n'
  }

  /** The position of the first line feed, or the length of the text. */
  function LineFeed(s: string): (n: nat)
    ensures n <= |s| && (n < |s| ==> s[n] == '\n') && forall i | 0 <= i < n :: s[i] != '\n'
  {
    if s == [] || s[0] == '\n' then 0
    else
      assert forall i | 1 <= i < |s| :: s[i] == s[1..][i - 1];
      1 + LineFeed(s[1..])
  }

  /** A carriage return at the end is dropped. */
  function Chomp(s: string): string {
    if s != [] && s[|s| - 1] == '\r' then s[..|s| - 1] else s
  }

  function AfterLine(s: string): (t: string)
    ensures s != [] ==> |t| < |s|
  {
    var n := LineFeed(s);
    if n < |s| then s[n + 1..] else []
  }

  /** All lines of a text, without their ends. */
  function LinesOf(s: string): seq<string>
    decreases |s|
  {
    if s == [] then [] else [Chomp(s[..LineFeed(s)])] + LinesOf(AfterLine(s))
  }

  /** Lines with CRLF after each. */
  function Lines(lines: seq<string>): string {
    if lines == [] then [] else lines[0] + CRLF + Lines(lines[1..])
  }

  predicate GoodLines(lines: seq<string>) {
    forall i | 0 <= i < |lines| :: lines[i] != [] && NoBreak(lines[i])
  }

  lemma {:induction false} LineFeedIs(s: string, n: nat)
    requires n <= |s| && (n < |s| ==> s[n] == '\n') && forall i | 0 <= i < n :: s[i] != '\n'
    ensures LineFeed(s) == n
  {
    var m := LineFeed(s);
    assert !(m < n);
    assert !(n < m);
  }

  lemma LastLine(line: string)
    requires NoBreak(line) && line != []
    ensures LinesOf(line) == [line]
  {
    LineFeedIs(line, |line|);
    assert AfterLine(line) == [] && line[..|line|] == line;
    assert LinesOf([]) == [];
  }

  lemma FirstLine(line: string, rest: string)
    requires NoBreak(line)
    ensures LinesOf(line + CRLF + rest) == [line] + LinesOf(rest)
  {
    var s := line + CRLF + rest;
    LineFeedIs(s, |line| + 1);
    assert s[..|line| + 1] == line + ['\r'];
    assert AfterLine(s) == rest;
    hide LineFeed;
  }

  /** Lines with CRLF between them. */
  function Header(lines: seq<string>): string
    requires lines != []
  {
    if |lines| == 1 then lines[0] else lines[0] + CRLF + Header(lines[1..])
  }

  lemma {:induction false} HeaderAndEnd(lines: seq<string>)
    requires lines != []
    ensures Lines(lines) == Header(lines) + CRLF
  {
    if |lines| == 1 {
      assert Lines(lines[1..]) == [];
    } else {
      HeaderAndEnd(lines[1..]);
      assert lines[0] + CRLF + (Header(lines[1..]) + CRLF) == lines[0] + CRLF + Header(lines[1..]) + CRLF;
    }
  }

  /** The header part of good lines splits into the lines. */
  lemma {:induction false} LinesBack(lines: seq<string>)
    requires lines != [] && GoodLines(lines)
    ensures LinesOf(Header(lines)) == lines
  {
    hide LinesOf;
    if |lines| == 1 {
      LastLine(lines[0]);
      assert lines == [lines[0]];
    } else {
      LinesBack(lines[1..]);
      FirstLine(lines[0], Header(lines[1..]));
      assert lines == [lines[0]] + lines[1..];
    }
  }

  lemma {:induction false} SkipPlain(a: string, s: string)
    requires forall i | 0 <= i < |a| :: a[i] != '\r'
    ensures Find(a + s) == if Find(s) < 0 then -1 else |a| + Find(s)
  {
    if a == [] {
      assert a + s == s;
    } else {
      SkipPlain(a[1..], s);
      assert (a + s)[1..] == a[1..] + s;
      if |a + s| >= 4 {
        assert (a + s)[..4][0] == a[0];
      } else {
        ShortFind(s);
      }
    }
  }

  lemma ShortFind(s: string)
    requires |s| < 4
    ensures Find(s) == -1
  {}

  /** The first empty line is the one behind the lines, whatever the body is. */
  lemma {:induction false} FindBlank(lines: seq<string>, body: string)
    requires lines != [] && GoodLines(lines)
    ensures Find(Lines(lines) + CRLF + body) == |Lines(lines)| - 2
  {
    var line := lines[0];
    if |lines| == 1 {
      assert lines[1..] == [];
      assert Lines(lines) + CRLF + body == line + (BLANK + body);
      assert (BLANK + body)[..4] == BLANK;
      SkipPlain(line, BLANK + body);
    } else {
      var rest := Lines(lines[1..]) + CRLF + body;
      assert Lines(lines) + CRLF + body == line + (CRLF + rest);
      FindBlank(lines[1..], body);
      assert rest[0] == lines[1][0];
      AfterBreak(rest);
      SkipPlain(line, CRLF + rest);
    }
  }

  lemma AfterBreak(rest: string)
    requires rest != [] && rest[0] != '\r' && Find(rest) >= 0
    ensures Find(CRLF + rest) == 2 + Find(rest)
  {
    var s := CRLF + rest;
    assert s[..4][2] == rest[0] && s[..4] != BLANK;
    assert s[1..] == ['\n'] + rest;
    assert s[1..][..4][0] == '\n';
    assert s[1..][1..] == rest;
  }

  // ---- white space ----

  predicate IsTrimmed(c: char) {
    c == ' ' || c == '\t' || c == '\r' || c == '\n'
  }

  predicate IsSpace(c: char) {
    IsTrimmed(c) || c as int == 11 || c as int == 12
  }

  function DropFront(s: string, p: char -> bool): string {
    if s != [] && p(s[0]) then DropFront(s[1..], p) else s
  }

  function DropBack(s: string, p: char -> bool): string {
    if s != [] && p(s[|s| - 1]) then DropBack(s[..|s| - 1], p) else s
  }

  /** A text with no such character at either end. */
  predicate Clean(s: string, p: char -> bool) {
    s != [] ==> !p(s[0]) && !p(s[|s| - 1])
  }

  function Strip(s: string, p: char -> bool): string {
    DropBack(DropFront(s, p), p)
  }

  /** Spaces, tabs and line ends at both ends are cut off. */
  function Trim(s: string): string {
    Strip(s, IsTrimmed)
  }

  /** Only spaces are cut off. */
  function TrimSpaces(s: string): string {
    Strip(s, c => c == ' ')
  }

  lemma StripClean(s: string, p: char -> bool)
    requires Clean(s, p)
    ensures Strip(s, p) == s
  {}

  lemma StripSpace(s: string, p: char -> bool)
    requires Clean(s, p) && p(' ')
    ensures Strip([' '] + s, p) == s
  {
    assert ([' '] + s)[1..] == s;
    assert DropFront(s, p) == s;
    assert DropFront([' '] + s, p) == DropFront(s, p);
  }

  // ---- tokens ----

  predicate NoSpace(s: string) {
    forall i | 0 <= i < |s| :: !IsSpace(s[i])
  }

  /** The length of the run of non-space characters at the front. */
  function TokenLength(s: string): (n: nat)
    ensures n <= |s| && NoSpace(s[..n]) && (n < |s| ==> IsSpace(s[n]))
  {
    if s == [] || IsSpace(s[0]) then 0
    else
      var n := TokenLength(s[1..]);
      assert s[..1 + n] == [s[0]] + s[1..][..n];
      1 + n
  }

  /** Skips white space, takes characters up to the next. */
  function Token(s: string): (string, string) {
    var t := DropFront(s, IsSpace);
    (t[..TokenLength(t)], t[TokenLength(t)..])
  }

  lemma {:induction false} TokenLengthIs(s: string, n: nat)
    requires n <= |s| && NoSpace(s[..n]) && (n < |s| ==> IsSpace(s[n]))
    ensures TokenLength(s) == n
  {
    if n > 0 {
      assert s[..n][0] == s[0] && s[..n][1..] == s[1..][..n - 1];
      TokenLengthIs(s[1..], n - 1);
    }
  }

  /** A word in front of white space, or at the end, is one token. */
  lemma TokenIs(word: string, tail: string)
    requires word != [] && NoSpace(word) && (tail == [] || IsSpace(tail[0]))
    ensures Token(word + tail) == (word, tail)
  {
    var s := word + tail;
    assert s[0] == word[0];
    assert s[..|word|] == word && s[|word|..] == tail;
    TokenLengthIs(s, |word|);
  }

  lemma TokenAfterSpace(word: string, tail: string)
    requires word != [] && NoSpace(word) && (tail == [] || IsSpace(tail[0]))
    ensures Token([' '] + word + tail) == (word, tail)
  {
    TokenIs(word, tail);
    assert ([' '] + word + tail)[1..] == word + tail;
    assert (word + tail)[0] == word[0];
  }

  // ---- numbers ----

  const ULONG_MAX: nat := 0xFFFF_FFFF_FFFF_FFFF

  function DigitCount(s: string): (n: nat)
    ensures n <= |s| && (forall i | 0 <= i < n :: IsDigitChar(s[i])) && (n < |s| ==> !IsDigitChar(s[n]))
  {
    if s == [] || !IsDigitChar(s[0]) then 0
    else
      assert forall i | 1 <= i < |s| :: s[i] == s[1..][i - 1];
      1 + DigitCount(s[1..])
  }

  datatype Number = NotANumber | OutOfRange | Number(value: nat)

  /** Reading an unsigned number: an optional sign, then digits; a minus sign wraps round. */
  function Stoul(text: string): Number {
    var s := DropFront(text, IsSpace);
    var signed := s != [] && (s[0] == '+' || s[0] == '-');
    var digits := if signed then s[1..] else s;
    var n := DigitCount(digits);
    if n == 0 then NotANumber
    else
      var v := Value(digits[..n]);
      if v > ULONG_MAX then OutOfRange
      else if signed && s[0] == '-' && v > 0 then Number(ULONG_MAX + 1 - v)
      else Number(v)
  }

  lemma DigitCountIs(s: string)
    requires forall i | 0 <= i < |s| :: IsDigitChar(s[i])
    ensures DigitCount(s) == |s|
  {}

  lemma StoulDigits(n: nat)
    requires n <= ULONG_MAX
    ensures Stoul(Digits(n)) == Number(n)
  {
    var s := Digits(n);
    assert IsDigitChar(s[0]);
    DigitCountIs(s);
    DigitsRoundTrip(n);
    hide Digits, Value, DigitCount;
    assert DropFront(s, IsSpace) == s;
    assert s[..|s|] == s;
  }

  lemma DigitsAreClean(n: nat)
    ensures Clean(Digits(n), IsTrimmed) && Clean(Digits(n), c => c == ' ') && NoBreak(Digits(n)) && NoSpace(Digits(n))
  {
    var s := Digits(n);
    assert IsDigitChar(s[0]) && IsDigitChar(s[|s| - 1]);
    forall i | 0 <= i < |s|
      ensures !IsSpace(s[i])
    {
      assert IsDigitChar(s[i]);
    }
  }

  // ---- fields ----

  /** The position of the first colon, or -1. */
  function Colon(s: string): (i: int)
    ensures -1 <= i < |s| && (i >= 0 ==> s[i] == ':')
  {
    if s == [] then -1
    else if s[0] == ':' then 0
    else
      var i := Colon(s[1..]);
      if i < 0 then -1 else i + 1
  }

  predicate NoColon(s: string) {
    forall i | 0 <= i < |s| :: s[i] != ':'
  }

  lemma {:induction false} ColonAfter(name: string, rest: string)
    requires NoColon(name)
    ensures Colon(name + [':'] + rest) == |name|
  {
    var s := name + [':'] + rest;
    if name != [] {
      ColonAfter(name[1..], rest);
      assert s[1..] == name[1..] + [':'] + rest;
    }
  }
}
