/** The string operations that the program borrows from the C and C++ libraries:
    decimal printing and parsing, searching, `getline`, `>>` and `c_str`. */
module Text {
  import opened Options

  // ---------------------------------------------------------------- decimal numbers

  predicate IsDigit(c: char) { '0' <= c <= '9' }

  predicate AllDigits(s: string) { forall i :: 0 <= i < |s| ==> IsDigit(s[i]) }

  function DigitChar(d: nat): (c: char)
    requires d < 10
  {
    "0123456789"[d]
  }

  function DigitValue(c: char): nat
    requires IsDigit(c)
  {
    (c - '0') as nat
  }

  /** `std::to_string` of a non-negative number. */
  function Decimal(n: nat): (s: string)
    ensures s != "" && AllDigits(s)
  {
    if n < 10 then [DigitChar(n)] else Decimal(n / 10) + [DigitChar(n % 10)]
  }

  function Value(s: string): nat
    requires AllDigits(s)
  {
    if s == "" then 0 else Value(s[..|s| - 1]) * 10 + DigitValue(s[|s| - 1])
  }

  lemma {:induction false} DecimalRoundTrip(n: nat)
    ensures Value(Decimal(n)) == n
  {
    if n >= 10 {
      DecimalRoundTrip(n / 10);
      var s := Decimal(n);
      assert s[..|s| - 1] == Decimal(n / 10);
    }
  }

  lemma DecimalInjective(m: nat, n: nat)
    requires Decimal(m) == Decimal(n)
    ensures m == n
  {
    DecimalRoundTrip(m);
    DecimalRoundTrip(n);
  }

  /** No leading zeros: the shortest text. */
  lemma {:induction false} DecimalIsShortest(n: nat)
    ensures Decimal(n)[0] == '0' <==> n == 0
    ensures n == 0 ==> |Decimal(n)| == 1
  {
    if n >= 10 { DecimalIsShortest(n / 10); }
  }

  function SignedDecimal(n: int): string {
    if n < 0 then "-" + Decimal(-n) else Decimal(n)
  }

  /** Length of the longest prefix of digits. */
  function DigitRun(s: string): (n: nat)
    ensures n <= |s| && AllDigits(s[..n]) && (n < |s| ==> !IsDigit(s[n]))
  {
    if s == "" || !IsDigit(s[0]) then 0
    else
      var n := DigitRun(s[1..]);
      assert s[..n + 1] == [s[0]] + s[1..][..n];
      n + 1
  }

  lemma DigitRunIs(s: string, n: nat)
    requires n <= |s| && AllDigits(s[..n]) && (n < |s| ==> !IsDigit(s[n]))
    ensures DigitRun(s) == n
  {
    var m := DigitRun(s);
    assert forall i :: 0 <= i < n ==> s[i] == s[..n][i];
    assert forall i :: 0 <= i < m ==> s[i] == s[..m][i];
  }

  // ---------------------------------------------------------------- white space and tokens

  predicate IsSpace(c: char) { c == ' ' || c == '\t' || c == '\n' || c == '\r' || c == '\U{0b}' || c == '\U{0c}' }

  predicate NoSpaces(s: string) { forall i :: 0 <= i < |s| ==> !IsSpace(s[i]) }

  function SkipSpaces(s: string): string {
    if s != "" && IsSpace(s[0]) then SkipSpaces(s[1..]) else s
  }

  function WordLength(s: string): (n: nat)
    ensures n <= |s|
  {
    if s == "" || IsSpace(s[0]) then 0 else 1 + WordLength(s[1..])
  }

  /** `stream >> word`: the next word and what is left of the stream. */
  function NextWord(s: string): (string, string) {
    var t := SkipSpaces(s);
    (t[..WordLength(t)], t[WordLength(t)..])
  }

  lemma {:induction false} WordLengthIs(word: string, rest: string)
    requires NoSpaces(word) && (rest == "" || IsSpace(rest[0]))
    ensures WordLength(word + rest) == |word|
  {
    if word == "" {
      assert word + rest == rest;
    } else {
      assert (word + rest)[1..] == word[1..] + rest;
      WordLengthIs(word[1..], rest);
    }
  }

  predicate AllSpaces(s: string) { forall i :: 0 <= i < |s| ==> IsSpace(s[i]) }

  lemma {:induction false} SkipLead(lead: string, t: string)
    requires AllSpaces(lead) && (t != "" ==> !IsSpace(t[0]))
    ensures SkipSpaces(lead + t) == t
  {
    if lead == "" {
      assert lead + t == t;
    } else {
      assert (lead + t)[1..] == lead[1..] + t;
      SkipLead(lead[1..], t);
    }
  }

  lemma NextWordIs(lead: string, word: string, rest: string)
    requires AllSpaces(lead)
    requires word != "" && NoSpaces(word) && (rest == "" || IsSpace(rest[0]))
    ensures NextWord(lead + word + rest) == (word, rest)
  {
    var t := word + rest;
    assert lead + word + rest == lead + t && t[0] == word[0];
    SkipLead(lead, t);
    WordLengthIs(word, rest);
    assert t[..|word|] == word && t[|word|..] == rest;
  }

  /** Where only white space is left there is no word. */
  lemma NoWord(lead: string)
    requires AllSpaces(lead)
    ensures NextWord(lead) == ("", "")
  {
    assert lead + "" == lead;
    SkipLead(lead, "");
  }

  // ---------------------------------------------------------------- numbers read from text

  const ULONG_MODULUS: int := 0x1_0000_0000_0000_0000
  const INT_MAX: int := 0x7fff_ffff
  const INT_MIN: int := -0x8000_0000

  function SignedValue(negative: bool, digits: string): int
    requires AllDigits(digits)
  {
    if negative then -(Value(digits) as int) else Value(digits)
  }

  /** Sign and digits at the head of `t`; None without digits. */
  function ScanTrimmed(t: string): Option<int> {
    var signed := t != "" && (t[0] == '-' || t[0] == '+');
    var u := if signed then t[1..] else t;
    var n := DigitRun(u);
    if n == 0 then None else Some(SignedValue(signed && t[0] == '-', u[..n]))
  }

  function ScanInteger(s: string): Option<int> { ScanTrimmed(SkipSpaces(s)) }

  /** `std::stoul`: None where it throws; a negative number wraps around. */
  function Stoul(s: string): Option<nat> {
    match ScanInteger(s)
    case None => None
    case Some(v) =>
      if v >= ULONG_MODULUS || v <= -ULONG_MODULUS then None
      else if v < 0 then Some(ULONG_MODULUS + v)
      else Some(v)
  }

  /** `stream >> int`: 0 without digits, the nearest bound when out of range. */
  function ExtractInt(s: string): int {
    match ScanInteger(s)
    case None => 0
    case Some(v) => if v > INT_MAX then INT_MAX else if v < INT_MIN then INT_MIN else v
  }

  predicate IsSign(sign: string) { sign == "" || sign == "-" || sign == "+" }

  lemma ScanDigits(sign: string, digits: string, rest: string)
    requires IsSign(sign) && digits != "" && AllDigits(digits) && (rest == "" || !IsDigit(rest[0]))
    ensures ScanTrimmed(sign + (digits + rest)) == Some(SignedValue(sign == "-", digits))
  {
    var u := digits + rest;
    assert u[..|digits|] == digits && IsDigit(u[0]);
    DigitRunIs(u, |digits|);
    if sign == "" {
      assert sign + u == u;
    } else {
      assert (sign + u)[0] == sign[0] && (sign + u)[1..] == u;
    }
  }

  /** White space, one sign and digits are read; whatever follows them is not. */
  lemma ScanText(lead: string, sign: string, digits: string, rest: string)
    requires AllSpaces(lead) && IsSign(sign)
    requires digits != "" && AllDigits(digits) && (rest == "" || !IsDigit(rest[0]))
    ensures ScanInteger(lead + (sign + (digits + rest))) == Some(SignedValue(sign == "-", digits))
  {
    var text := sign + (digits + rest);
    ScanDigits(sign, digits, rest);
    assert text[0] == if sign == "" then digits[0] else sign[0];
    SkipLead(lead, text);
  }

  /** Without a digit there it is no number. */
  lemma ScanFails(lead: string, sign: string, rest: string)
    requires AllSpaces(lead) && IsSign(sign) && (rest != "" ==> !IsDigit(rest[0]))
    requires sign == "" && rest != "" ==> !IsSpace(rest[0]) && rest[0] != '-' && rest[0] != '+'
    ensures ScanInteger(lead + (sign + rest)) == None
  {
    var text := sign + rest;
    if sign == "" {
      assert text == rest;
    } else {
      assert text[0] == sign[0] && text[1..] == rest;
    }
    SkipLead(lead, text);
  }

  /** `std::stoul` on a number: its value, a negative one modulo 2^64, none if too long. */
  lemma StoulIs(lead: string, sign: string, digits: string, rest: string)
    requires AllSpaces(lead) && IsSign(sign)
    requires digits != "" && AllDigits(digits) && (rest == "" || !IsDigit(rest[0]))
    ensures Stoul(lead + (sign + (digits + rest)))
         == if Value(digits) >= 0x1_0000_0000_0000_0000 then None
            else if sign == "-" && Value(digits) > 0 then Some(0x1_0000_0000_0000_0000 - Value(digits))
            else Some(Value(digits))
  {
    ScanText(lead, sign, digits, rest);
  }

  /** `stream >> int` on a number: its value, or the nearest an int can hold. */
  lemma ExtractIntIs(lead: string, sign: string, digits: string, rest: string)
    requires AllSpaces(lead) && IsSign(sign)
    requires digits != "" && AllDigits(digits) && (rest == "" || !IsDigit(rest[0]))
    ensures var v := if sign == "-" then 0 - Value(digits) else Value(digits);
            var n := ExtractInt(lead + (sign + (digits + rest)));
            && (-0x8000_0000 <= v <= 0x7fff_ffff ==> n == v)
            && (v > 0x7fff_ffff ==> n == 0x7fff_ffff) && (v < -0x8000_0000 ==> n == -0x8000_0000)
  {
    ScanText(lead, sign, digits, rest);
  }

  lemma PrintedIsNumberText(n: int, rest: string)
    ensures SignedDecimal(n) + rest == (if n < 0 then "-" else "") + (Decimal(if n < 0 then -n else n) + rest)
  {
  }

  /** A printed integer is read back, whatever white space precedes and whatever
      non-digit follows it. */
  lemma ScanPrinted(lead: string, n: int, rest: string)
    requires AllSpaces(lead)
    requires rest == "" || !IsDigit(rest[0])
    ensures ScanInteger(lead + (SignedDecimal(n) + rest)) == Some(n)
  {
    var m := if n < 0 then -n else n;
    DecimalRoundTrip(m);
    ScanText(lead, if n < 0 then "-" else "", Decimal(m), rest);
    PrintedIsNumberText(n, rest);
  }

  // ---------------------------------------------------------------- searching and lines

  function FindChar(s: string, c: char): (r: Option<nat>)
    ensures r.Some? ==> r.value < |s| && s[r.value] == c && forall j :: 0 <= j < r.value ==> s[j] != c
    ensures r.None? ==> c !in s
  {
    if s == "" then None
    else if s[0] == c then Some(0)
    else match FindChar(s[1..], c)
         case None => None
         case Some(i) => Some(i + 1)
  }

  predicate BlankLineAt(s: string, i: int) {
    0 <= i && i + 4 <= |s| && s[i] == '\r' && s[i + 1] == '\n' && s[i + 2] == '\r' && s[i + 3] == '\n'
  }

  /** `s.find("\r\n\r\n")` */
  function FindBlankLine(s: string): (r: Option<nat>)
    ensures r.Some? ==> BlankLineAt(s, r.value) && forall j :: 0 <= j < r.value ==> !BlankLineAt(s, j)
    ensures r.None? ==> forall j :: !BlankLineAt(s, j)
  {
    FindBlankLineFrom(s, 0)
  }

  function FindBlankLineFrom(s: string, i: nat): (r: Option<nat>)
    requires forall j :: 0 <= j < i ==> !BlankLineAt(s, j)
    ensures r.Some? ==> BlankLineAt(s, r.value) && forall j :: 0 <= j < r.value ==> !BlankLineAt(s, j)
    ensures r.None? ==> forall j :: !BlankLineAt(s, j)
    decreases |s| - i
  {
    if i + 4 > |s| then None
    else if BlankLineAt(s, i) then Some(i)
    else FindBlankLineFrom(s, i + 1)
  }

  /** `std::getline`: the text up to the next newline, and the rest. */
  function GetLine(s: string): (r: Option<(string, string)>)
    ensures r.Some? ==> |r.value.1| < |s|
  {
    if s == "" then None
    else match FindChar(s, '\n')
         case None => Some((s, ""))
         case Some(i) => Some((s[..i], s[i + 1..]))
  }

  /** Drop a trailing carriage return. */
  function Chomp(line: string): string {
    if line != "" && line[|line| - 1] == '\r' then line[..|line| - 1] else line
  }

  /** Drop leading blanks, as the header parsers do (blanks only, not all white space). */
  function StripBlanks(s: string): string {
    if s != "" && s[0] == ' ' then StripBlanks(s[1..]) else s
  }

  /** Only one carriage return goes, and only from the end. */
  lemma ChompIs(line: string)
    ensures Chomp(line + "\r") == line
    ensures line == "" || line[|line| - 1] != '\r' ==> Chomp(line) == line
  {
    assert (line + "\r")[..|line|] == line;
  }

  lemma {:induction false} StripBlanksIs(blanks: string, s: string)
    requires (forall i :: 0 <= i < |blanks| ==> blanks[i] == ' ') && (s != "" ==> s[0] != ' ')
    ensures StripBlanks(blanks + s) == s
  {
    if blanks == "" {
      assert blanks + s == s;
    } else {
      assert (blanks + s)[1..] == blanks[1..] + s;
      StripBlanksIs(blanks[1..], s);
    }
  }

  /** A line ends at the first newline, or else where the text does; an empty text has none. */
  lemma GetLineIs(line: string, rest: string)
    requires '\n' !in line
    ensures GetLine(line + "\n" + rest) == Some((line, rest))
    ensures line != "" ==> GetLine(line) == Some((line, ""))
    ensures GetLine("") == None
  {
    var s := line + "\n" + rest;
    assert s[|line|] == '\n' && forall j :: 0 <= j < |line| ==> s[j] == line[j] && line[j] in line;
    assert s[..|line|] == line && s[|line| + 1..] == rest;
    assert FindChar(s, '\n') == Some(|line|);
  }

  predicate Clean(s: string) { forall i :: 0 <= i < |s| ==> s[i] != '\r' && s[i] != '\n' }

  const CRLF := "\r\n"

  /** Lines separated by CRLF, none after the last. */
  function JoinLines(lines: seq<string>): string
    requires lines != []
  {
    if |lines| == 1 then lines[0] else lines[0] + CRLF + JoinLines(lines[1..])
  }

  predicate ProperLines(lines: seq<string>) {
    forall i :: 0 <= i < |lines| ==> lines[i] != "" && Clean(lines[i])
  }

  /** The first blank line of a message is the one after its header lines,
      whatever the body contains. */
  lemma {:induction false} BlankLineEndsHeader(lines: seq<string>, body: string)
    requires lines != [] && ProperLines(lines)
    ensures FindBlankLine(JoinLines(lines) + CRLF + CRLF + body) == Some(|JoinLines(lines)|)
  {
    var t := JoinLines(lines) + CRLF + CRLF + body;
    var p := |JoinLines(lines)|;
    assert BlankLineAt(t, p);
    if |lines| == 1 {
      forall j | 0 <= j < p
        ensures !BlankLineAt(t, j)
      {
        assert t[j] == lines[0][j];
      }
    } else {
      var rest := JoinLines(lines[1..]) + CRLF + CRLF + body;
      BlankLineEndsHeader(lines[1..], body);
      var k := |lines[0]|;
      assert t == lines[0] + CRLF + rest;
      assert rest[0] == lines[1][0];
      forall j | 0 <= j < p
        ensures !BlankLineAt(t, j)
      {
        if j < k {
          assert t[j] == lines[0][j];
        } else if j == k {
          assert t[j + 2] == rest[0];
        } else if j >= k + 2 {
          assert !BlankLineAt(rest, j - k - 2);
          assert forall m :: 0 <= m < |rest| ==> t[k + 2 + m] == rest[m];
        }
      }
    }
  }

  lemma GetLineAt(line: string, rest: string)
    requires Clean(line)
    ensures GetLine(line + CRLF + rest) == Some((line + "\r", rest))
  {
    var s := line + CRLF + rest;
    var k := |line|;
    assert s[k] == '\r' && s[k + 1] == '\n';
    assert forall j :: 0 <= j < k ==> s[j] == line[j];
    assert FindChar(s, '\n') == Some(k + 1);
    assert s[..k + 1] == line + "\r" && s[k + 2..] == rest;
  }

  lemma GetLineOfOne(line: string)
    requires line != "" && Clean(line)
    ensures GetLine(line) == Some((line, "")) && Chomp(line) == line
  {
    assert FindChar(line, '\n').None?;
  }

  lemma GetLineOfJoined(lines: seq<string>)
    requires lines != [] && ProperLines(lines)
    ensures GetLine(JoinLines(lines)).Some?
    ensures Chomp(GetLine(JoinLines(lines)).value.0) == lines[0]
    ensures GetLine(JoinLines(lines)).value.1 == if |lines| == 1 then "" else JoinLines(lines[1..])
  {
    if |lines| > 1 {
      GetLineAt(lines[0], JoinLines(lines[1..]));
      ChompIs(lines[0]);
    } else {
      GetLineOfOne(lines[0]);
    }
  }

  // ---------------------------------------------------------------- C strings

  predicate NulFree(s: string) { '\0' !in s }

  /** What is left of a text that passes through a C string without its length, as
      every text does that is bound to a statement or read from a column. */
  function UpToNul(s: string): string {
    match FindChar(s, '\0')
    case None => s
    case Some(i) => s[..i]
  }

  /** It is the longest prefix without a NUL, so the whole text exactly if that has none. */
  lemma UpToNulIs(s: string)
    ensures var r := UpToNul(s);
            && r <= s && NulFree(r) && (|r| < |s| ==> s[|r|] == '\0')
            && (r == s <==> NulFree(s))
  {
  }
}
