/** Header syntax shared by both ends of a connection (common/src/http_server.cpp,
    common/src/http_client.cpp). */
module HttpHeaders {
  import opened Options
  import opened Text

  type Headers = map<string, string>

  function HeaderLine(key: string, value: string): string { key + ": " + value }

  /** One header line, carriage return removed; lines without a colon are skipped. */
  function AddHeader(headers: Headers, line: string): Headers {
    match FindChar(line, ':')
    case None => headers
    case Some(i) => headers[line[..i] := StripBlanks(line[i + 1..])]
  }

  function HeaderMap(block: string, headers: Headers): Headers
    decreases |block|
  {
    match GetLine(block)
    case None => headers
    case Some(lineAndRest) => HeaderMap(lineAndRest.1, AddHeader(headers, Chomp(lineAndRest.0)))
  }

  method EraseBlanks(s: string) returns (value: string)
    ensures value == StripBlanks(s)
  {
    value := s;
    while value != "" && value[0] == ' '
      invariant StripBlanks(value) == StripBlanks(s)
      decreases |value|
    {
      value := value[1..];
    }
  }

  method ParseHeaderLine(headers: Headers, text: string) returns (more: Headers)
    ensures more == AddHeader(headers, Chomp(text))
  {
    var line := text;
    if line != "" && line[|line| - 1] == '\r' { line := line[..|line| - 1]; }
    var colon := FindChar(line, ':');
    if colon.None? { return headers; }
    var key := line[..colon.value];
    var value := EraseBlanks(line[colon.value + 1..]);
    more := headers[key := value];
  }

  /** The `getline` loop both parsers run over the header block. */
  method ParseHeaderLines(block: string) returns (headers: Headers)
    ensures headers == HeaderMap(block, map[])
  {
    headers := map[];
    var rest := block;
    var next := GetLine(rest);
    while next.Some?
      invariant next == GetLine(rest) && HeaderMap(rest, headers) == HeaderMap(block, map[])
      decreases |rest|
    {
      headers := ParseHeaderLine(headers, next.value.0);
      rest := next.value.1;
      next := GetLine(rest);
    }
  }

  function FoldHeaders(lines: seq<string>, headers: Headers): Headers {
    if lines == [] then headers else FoldHeaders(lines[1..], AddHeader(headers, lines[0]))
  }

  lemma {:induction false} HeaderMapOfJoined(lines: seq<string>, headers: Headers)
    requires lines != [] && ProperLines(lines)
    ensures HeaderMap(JoinLines(lines), headers) == FoldHeaders(lines, headers)
    decreases |lines|
  {
    GetLineOfJoined(lines);
    if |lines| == 1 {
      assert lines[1..] == [];
    } else {
      HeaderMapOfJoined(lines[1..], AddHeader(headers, lines[0]));
    }
  }

  predicate GoodKey(key: string) { Clean(key) && ':' !in key }

  predicate GoodValue(value: string) { Clean(value) && (value == "" || value[0] != ' ') }

  lemma KeyOfLine(key: string, value: string)
    requires ':' !in key
    ensures FindChar(HeaderLine(key, value), ':') == Some(|key|)
  {
    var line := HeaderLine(key, value);
    assert line[|key|] == ':';
    assert forall j :: 0 <= j < |key| ==> line[j] == key[j] && key[j] in key;
  }

  /** The key is what precedes the first colon, the value what follows it, without
      leading blanks; a line without a colon adds nothing. */
  lemma AddHeaderIs(headers: Headers, key: string, blanks: string, value: string)
    requires ':' !in key && (forall i :: 0 <= i < |blanks| ==> blanks[i] == ' ') && (value != "" ==> value[0] != ' ')
    ensures AddHeader(headers, key + ":" + (blanks + value)) == headers[key := value]
    ensures AddHeader(headers, key) == headers
  {
    var line := key + ":" + (blanks + value);
    assert line[|key|] == ':';
    assert forall j :: 0 <= j < |key| ==> line[j] == key[j] && key[j] in key;
    assert FindChar(line, ':') == Some(|key|);
    assert line[..|key|] == key && line[|key| + 1..] == blanks + value;
    StripBlanksIs(blanks, value);
  }

  lemma AddHeaderLine(headers: Headers, key: string, value: string)
    requires ':' !in key
    ensures AddHeader(headers, HeaderLine(key, value)) == headers[key := StripBlanks(value)]
  {
    var line := HeaderLine(key, value);
    KeyOfLine(key, value);
    assert line[..|key|] == key;
    assert line[|key| + 1..] == " " + value;
    assert (" " + value)[1..] == value;
  }

  type Pairs = seq<(string, string)>

  function PairLines(pairs: Pairs): (lines: seq<string>)
    ensures |lines| == |pairs|
    ensures forall i :: 0 <= i < |pairs| ==> lines[i] == HeaderLine(pairs[i].0, pairs[i].1)
  {
    if pairs == [] then [] else [HeaderLine(pairs[0].0, pairs[0].1)] + PairLines(pairs[1..])
  }

  predicate GoodKeys(pairs: Pairs) { forall i :: 0 <= i < |pairs| ==> GoodKey(pairs[i].0) && Clean(pairs[i].1) }

  lemma PairLinesProper(pairs: Pairs)
    requires GoodKeys(pairs)
    ensures ProperLines(PairLines(pairs))
  {
  }

  function FoldPairs(pairs: Pairs, headers: Headers): Headers {
    if pairs == [] then headers
    else FoldPairs(pairs[1..], headers[pairs[0].0 := StripBlanks(pairs[0].1)])
  }

  lemma {:induction false} FoldPairLines(pairs: Pairs, headers: Headers)
    requires GoodKeys(pairs)
    ensures FoldHeaders(PairLines(pairs), headers) == FoldPairs(pairs, headers)
    decreases |pairs|
  {
    if pairs != [] {
      AddHeaderLine(headers, pairs[0].0, pairs[0].1);
      FoldPairLines(pairs[1..], AddHeader(headers, HeaderLine(pairs[0].0, pairs[0].1)));
    }
  }

  predicate Mentions(pairs: Pairs, key: string) {
    exists i :: 0 <= i < |pairs| && pairs[i].0 == key
  }

  lemma {:induction false} FoldPairsAbsent(pairs: Pairs, headers: Headers, key: string)
    requires !Mentions(pairs, key)
    ensures key in FoldPairs(pairs, headers) <==> key in headers
    ensures key in headers ==> FoldPairs(pairs, headers)[key] == headers[key]
    decreases |pairs|
  {
    if pairs != [] {
      assert pairs[0].0 != key;
      FoldPairsAbsent(pairs[1..], headers[pairs[0].0 := StripBlanks(pairs[0].1)], key);
    }
  }

  /** A key takes the value of its last line. */
  lemma {:induction false} FoldPairsLast(pairs: Pairs, headers: Headers, i: nat)
    requires i < |pairs| && !Mentions(pairs[i + 1..], pairs[i].0)
    ensures var all := FoldPairs(pairs, headers);
            pairs[i].0 in all && all[pairs[i].0] == StripBlanks(pairs[i].1)
    decreases i
  {
    var next := headers[pairs[0].0 := StripBlanks(pairs[0].1)];
    if i == 0 {
      FoldPairsAbsent(pairs[1..], next, pairs[0].0);
    } else {
      assert pairs[1..][i..] == pairs[i + 1..];
      FoldPairsLast(pairs[1..], next, i - 1);
    }
  }

  /** Every line followed by CRLF, as the printers emit them. */
  function Terminated(lines: seq<string>): string {
    if lines == [] then "" else lines[0] + CRLF + Terminated(lines[1..])
  }

  lemma {:induction false} TerminatedIsJoined(lines: seq<string>, tail: string)
    requires lines != []
    ensures Terminated(lines) + tail == JoinLines(lines) + CRLF + tail
  {
    if |lines| == 1 {
      assert lines[1..] == [];
    } else {
      TerminatedIsJoined(lines[1..], tail);
      assert Terminated(lines) + tail == lines[0] + CRLF + (Terminated(lines[1..]) + tail);
    }
  }

  function Message(first: string, pairs: Pairs, body: string): string {
    Terminated([first] + PairLines(pairs)) + CRLF + body
  }

  function MessageHead(first: string, pairs: Pairs): string { JoinLines([first] + PairLines(pairs)) }

  /** A printed message comes apart again into its first line, its headers and its body. */
  lemma MessageParses(first: string, pairs: Pairs, body: string)
    requires first != "" && Clean(first) && pairs != [] && GoodKeys(pairs)
    ensures var data := Message(first, pairs, body);
            var head := MessageHead(first, pairs);
            && data == head + CRLF + CRLF + body
            && FindBlankLine(data) == Some(|head|)
            && GetLine(head) == Some((first + "\r", JoinLines(PairLines(pairs))))
            && HeaderMap(JoinLines(PairLines(pairs)), map[]) == FoldPairs(pairs, map[])
  {
    var headerLines := PairLines(pairs);
    var lines := [first] + headerLines;
    PairLinesProper(pairs);
    assert ProperLines(lines);
    TerminatedIsJoined(lines, CRLF + body);
    assert Message(first, pairs, body) == Terminated(lines) + (CRLF + body);
    assert Message(first, pairs, body) == JoinLines(lines) + CRLF + CRLF + body;
    BlankLineEndsHeader(lines, body);
    assert lines[1..] == headerLines;
    GetLineAt(first, JoinLines(headerLines));
    HeaderMapOfJoined(headerLines, map[]);
    FoldPairLines(pairs, map[]);
  }
}

/** A request from the client's printer to the server's parser. */
module HttpRequest {
  import opened Options
  import opened Text
  import opened HttpHeaders

  datatype Outgoing = Outgoing(verb: string, path: string, host: string, contentType: string, body: string)

  datatype Request = Request(verb: string, path: string, headers: Headers, body: string)

  // ---------------------------------------------------------------- the client prints

  function RequestLine(q: Outgoing): string { q.verb + " " + q.path + " HTTP/1.1" }

  function RequestPairs(q: Outgoing): Pairs {
    [("Host", q.host), ("Connection", "close")]
    + if q.body != "" then [("Content-Type", q.contentType), ("Content-Length", Decimal(|q.body|))] else []
  }

  function PrintRequest(q: Outgoing): string { Message(RequestLine(q), RequestPairs(q), q.body) }

  function RequestHead(q: Outgoing): string { MessageHead(RequestLine(q), RequestPairs(q)) }

  // ---------------------------------------------------------------- the server parses a header block

  datatype Head = Head(verb: string, path: string, headers: Headers)

  function HeadOf(block: string): Head {
    var (line, rest) := if GetLine(block).Some? then GetLine(block).value else ("", "");
    var (verb, more) := NextWord(Chomp(line));
    var (path, _) := NextWord(more);
    Head(verb, path, HeaderMap(rest, map[]))
  }

  /** The announced body length; None where `std::stoul` throws. */
  function ContentLength(headers: Headers): Option<nat> {
    if "Content-Length" in headers then Stoul(headers["Content-Length"]) else Some(0)
  }

  predicate Printable(q: Outgoing) {
    && q.verb != "" && NoSpaces(q.verb)
    && q.path != "" && NoSpaces(q.path)
    && Clean(q.host) && Clean(q.contentType)
    && |q.body| < ULONG_MODULUS
  }

  lemma RequestLineClean(q: Outgoing)
    requires Printable(q)
    ensures Clean(RequestLine(q)) && RequestLine(q) != ""
  {
    assert forall i :: 0 <= i < |q.verb| ==> !IsSpace(q.verb[i]);
    assert forall i :: 0 <= i < |q.path| ==> !IsSpace(q.path[i]);
  }

  lemma RequestLineParses(q: Outgoing)
    requires Printable(q)
    ensures var (verb, more) := NextWord(RequestLine(q));
            verb == q.verb && NextWord(more).0 == q.path
  {
    var tail := " " + q.path + " HTTP/1.1";
    assert RequestLine(q) == "" + q.verb + tail;
    NextWordIs("", q.verb, tail);
    NextWordIs(" ", q.path, " HTTP/1.1");
  }

  lemma DecimalIsGoodValue(n: nat)
    ensures GoodValue(Decimal(n)) && StripBlanks(Decimal(n)) == Decimal(n)
  {
    assert IsDigit(Decimal(n)[0]);
  }

  lemma LengthHeaderParses(q: Outgoing)
    requires Printable(q)
    ensures ContentLength(FoldPairs(RequestPairs(q), map[])) == Some(|q.body|)
  {
    var pairs := RequestPairs(q);
    if q.body == "" {
      FoldPairsAbsent(pairs, map[], "Content-Length");
    } else {
      assert pairs[3] == ("Content-Length", Decimal(|q.body|));
      FoldPairsLast(pairs, map[], 3);
      DecimalIsGoodValue(|q.body|);
      ScanPrinted("", |q.body|, "");
      assert "" + (SignedDecimal(|q.body|) + "") == Decimal(|q.body|);
    }
  }

  lemma RequestPairsGood(q: Outgoing)
    requires Printable(q)
    ensures GoodKeys(RequestPairs(q))
  {
    DecimalIsGoodValue(|q.body|);
  }

  /** The header block of a printed request parses back to what was printed. */
  lemma HeadRoundTrip(q: Outgoing)
    requires Printable(q)
    ensures PrintRequest(q) == RequestHead(q) + CRLF + CRLF + q.body
    ensures FindBlankLine(PrintRequest(q)) == Some(|RequestHead(q)|)
    ensures var head := HeadOf(RequestHead(q));
            && head.verb == q.verb && head.path == q.path
            && head.headers == FoldPairs(RequestPairs(q), map[])
            && ContentLength(head.headers) == Some(|q.body|)
  {
    RequestPairsGood(q);
    RequestLineClean(q);
    RequestLineParses(q);
    MessageParses(RequestLine(q), RequestPairs(q), q.body);
    assert Chomp(RequestLine(q) + "\r") == RequestLine(q);
    LengthHeaderParses(q);
  }

  /** The headers a server finds in a printed request. */
  lemma RequestHeaders(q: Outgoing)
    requires Printable(q)
    ensures var headers := FoldPairs(RequestPairs(q), map[]);
            && headers.Keys == {"Host", "Connection"} + (if q.body != "" then {"Content-Type", "Content-Length"} else {})
            && headers["Host"] == StripBlanks(q.host) && headers["Connection"] == "close"
            && (q.body != "" ==>
                  && headers["Content-Type"] == StripBlanks(q.contentType)
                  && headers["Content-Length"] == Decimal(|q.body|))
  {
    DecimalIsGoodValue(|q.body|);
    FoldFour(RequestPairs(q));
  }

  lemma FoldOne(pairs: Pairs, headers: Headers)
    requires pairs != []
    ensures FoldPairs(pairs, headers) == FoldPairs(pairs[1..], headers[pairs[0].0 := StripBlanks(pairs[0].1)])
  {
  }

  lemma FoldFour(pairs: Pairs)
    requires |pairs| == 2 || |pairs| == 4
    ensures var two := map[pairs[0].0 := StripBlanks(pairs[0].1)][pairs[1].0 := StripBlanks(pairs[1].1)];
            FoldPairs(pairs, map[])
            == if |pairs| == 2 then two
               else two[pairs[2].0 := StripBlanks(pairs[2].1)][pairs[3].0 := StripBlanks(pairs[3].1)]
  {
    var one := map[][pairs[0].0 := StripBlanks(pairs[0].1)];
    assert one == map[pairs[0].0 := StripBlanks(pairs[0].1)];
    var two := one[pairs[1].0 := StripBlanks(pairs[1].1)];
    FoldOne(pairs, map[]);
    FoldOne(pairs[1..], one);
    assert pairs[1..][1..] == pairs[2..];
    if |pairs| == 4 {
      var three := two[pairs[2].0 := StripBlanks(pairs[2].1)];
      FoldOne(pairs[2..], two);
      FoldOne(pairs[2..][1..], three);
      assert pairs[2..][1..][1..] == [];
    }
  }

  lemma TerminatedLine(line: string, lines: seq<string>)
    ensures Terminated([line] + lines) == line + CRLF + Terminated(lines)
  {
    assert ([line] + lines)[1..] == lines;
  }

  /** A request without a body, to the letter. */
  lemma PrintedBare(q: Outgoing)
    requires q.body == ""
    ensures PrintRequest(q)
         == q.verb + " " + q.path + " HTTP/1.1" + CRLF + ("Host: " + q.host + CRLF + ("Connection: close" + CRLF + "")) + CRLF + ""
  {
    var host, close := "Host: " + q.host, "Connection: close";
    var lines := PairLines(RequestPairs(q));
    assert HeaderLine("Host", q.host) == host && HeaderLine("Connection", "close") == close by { ColonBlank(q.host); }
    assert lines == [host] + ([close] + []);
    TerminatedLine(RequestLine(q), lines);
    TerminatedLine(host, [close] + []);
    TerminatedLine(close, []);
  }

  lemma ColonBlank(host: string)
    ensures HeaderLine("Host", host) == "Host: " + host && HeaderLine("Connection", "close") == "Connection: close"
  {
    assert "Host" + ": " == "Host: ";
  }
}
