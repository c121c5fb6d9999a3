/** A response from the server's printer (common/src/http_server.cpp) to the
    client's parser (common/src/http_client.cpp). */
module HttpClient {
  import opened Options
  import opened Text
  import opened HttpHeaders
  import Lifecycle

  datatype Response = Response(status: int, headers: Headers, body: string)

  /** `ClientResponse`: complete, timed out while waiting, or failed otherwise. */
  datatype ClientResult = Okay(response: Response) | OutOfTime | Broken(error: string)

  // ---------------------------------------------------------------- the server prints

  function ReasonPhrase(status: int): string {
    match status
    case 200 => "OK"
    case 201 => "Created"
    case 204 => "No Content"
    case 400 => "Bad Request"
    case 404 => "Not Found"
    case 405 => "Method Not Allowed"
    case 409 => "Conflict"
    case 500 => "Internal Server Error"
    case 501 => "Not Implemented"
    case _ => ""
  }

  function StatusText(status: int, reason: string): string {
    "HTTP/1.1 " + SignedDecimal(status) + " " + reason
  }

  function StatusLine(status: int): string { StatusText(status, ReasonPhrase(status)) }

  /** The two headers the server adds to every response. */
  function Stamped(r: Response): Response {
    r.(headers := r.headers["Content-Length" := Decimal(|r.body|)]["Connection" := "close"])
  }

  ghost predicate Lists(order: seq<string>, headers: Headers) {
    Lifecycle.NoRepeats(order) && forall k :: k in order <==> k in headers
  }

  function PairsInOrder(headers: Headers, order: seq<string>): Pairs
    requires forall i :: 0 <= i < |order| ==> order[i] in headers
  {
    seq(|order|, i requires 0 <= i < |order| => (order[i], headers[order[i]]))
  }

  function ResponseText(r: Response, order: seq<string>): string
    requires forall i :: 0 <= i < |order| ==> order[i] in r.headers
  {
    Message(StatusLine(r.status), PairsInOrder(r.headers, order), r.body)
  }

  lemma {:induction false} TerminatedSnoc(lines: seq<string>, line: string)
    ensures Terminated(lines + [line]) == Terminated(lines) + line + CRLF
  {
    if lines == [] {
      assert [line][1..] == [] && lines + [line] == [line];
    } else {
      assert (lines + [line])[1..] == lines[1..] + [line];
      TerminatedSnoc(lines[1..], line);
    }
  }

  lemma TerminatedPrefix(first: string, lines: seq<string>, i: nat)
    requires i < |lines|
    ensures Terminated([first] + lines[..i + 1]) == Terminated([first] + lines[..i]) + lines[i] + CRLF
  {
    TerminatedSnoc([first] + lines[..i], lines[i]);
    assert [first] + lines[..i + 1] == [first] + lines[..i] + [lines[i]];
  }

  /** The loop over the header map. */
  method PrintLines(first: string, headers: Headers, order: seq<string>, ghost lines: seq<string>) returns (text: string)
    requires |lines| == |order|
    requires forall i :: 0 <= i < |order| ==> order[i] in headers && lines[i] == HeaderLine(order[i], headers[order[i]])
    ensures text == Terminated([first] + lines)
  {
    text := first + CRLF;
    assert [first] + lines[..0] == [first];
    TerminatedSnoc([], first);
    for i := 0 to |order|
      invariant text == Terminated([first] + lines[..i])
    {
      TerminatedPrefix(first, lines, i);
      text := text + HeaderLine(order[i], headers[order[i]]) + CRLF;
    }
    assert lines[..|order|] == lines;
  }

  /** The response as the server writes it; `order` is the header map's iteration order. */
  method PrintResponse(r: Response, order: seq<string>) returns (text: string)
    requires Lists(order, Stamped(r).headers)
    ensures text == ResponseText(Stamped(r), order)
  {
    var headers := Stamped(r).headers;
    text := PrintLines(StatusLine(r.status), headers, order, PairLines(PairsInOrder(headers, order)));
    text := text + CRLF + r.body;
  }

  // ---------------------------------------------------------------- the client parses

  function ParseResponse(data: string): ClientResult {
    if data == "" then Broken("empty response from server")
    else match FindBlankLine(data)
         case None => Broken("malformed response")
         case Some(p) =>
           var (line, rest) := if GetLine(data[..p]).Some? then GetLine(data[..p]).value else ("", "");
           Okay(Response(ExtractInt(NextWord(line).1), HeaderMap(rest, map[]), data[p + 4..]))
  }

  /** How the stream of chunks ended. */
  datatype Ending = Closed | Stalled | Failed

  function Concat(chunks: seq<string>): string {
    if chunks == [] then "" else Concat(chunks[..|chunks| - 1]) + chunks[|chunks| - 1]
  }

  /** The chunks in the order they came, whatever the network cut. */
  lemma {:induction false} ConcatOfParts(first: seq<string>, second: seq<string>, chunk: string)
    ensures Concat(first + second) == Concat(first) + Concat(second)
    ensures Concat([]) == "" && Concat([chunk]) == chunk
    decreases |second|
  {
    assert [chunk][..0] == [];
    if second == [] {
      assert first + second == first;
    } else {
      var n := |second| - 1;
      ConcatOfParts(first, second[..n], chunk);
      assert (first + second)[..|first + second| - 1] == first + second[..n];
    }
  }

  /** How far an exchange gets: the call that fails, or the chunks that come back. */
  datatype Exchange =
    | NoSocket
    | NoAddress
    | NoConnection
    | NotSent                                           // an error or a timeout of `send`
    | Sent(chunks: seq<string>, ending: Ending)

  function Received(chunks: seq<string>, ending: Ending): ClientResult {
    if ending.Stalled? then OutOfTime else ParseResponse(Concat(chunks))
  }

  method ReceiveResponse(chunks: seq<string>, ending: Ending) returns (r: ClientResult)
    ensures r == Received(chunks, ending)
  {
    var data := "";
    for i := 0 to |chunks|
      invariant data == Concat(chunks[..i])
    {
      assert chunks[..i + 1][..i] == chunks[..i];
      data := data + chunks[i];
    }
    assert chunks[..|chunks|] == chunks;
    if ending.Stalled? { return OutOfTime; }
    if data == "" { return Broken("empty response from server"); }
    var p := FindBlankLine(data);
    if p.None? { return Broken("malformed response"); }
    var first := GetLine(data[..p.value]);
    var line, rest := "", "";
    if first.Some? { line, rest := first.value.0, first.value.1; }
    var headers := ParseHeaderLines(rest);
    r := Okay(Response(ExtractInt(NextWord(line).1), headers, data[p.value + 4..]));
  }

  /** What the client returns; `host` and `port` only enter the error texts. */
  function Requested(host: string, port: int, e: Exchange): ClientResult {
    match e
    case NoSocket => Broken("failed to create socket")
    case NoAddress => Broken("could not resolve host: " + host)
    case NoConnection => Broken("connection refused at " + host + ":" + SignedDecimal(port))
    case NotSent => Broken("failed to send request")
    case Sent(chunks, ending) => Received(chunks, ending)
  }

  /** What the runtime manager makes of it, and whether the request had gone out. */
  function Classify(sent: bool, r: ClientResult): Lifecycle.Response {
    match r
    case OutOfTime => Lifecycle.NoAnswer
    case Broken(_) => Lifecycle.Unreachable(sent)
    case Okay(response) => Lifecycle.Answer(response.status)
  }

  /** Which exchange ends in which class.  Only a stalled `recv` is a timeout.  A
      failed connection and a failed or timed-out `send` are told apart from a reply
      that breaks off before its blank line only by whether the request went out. */
  lemma ClassifyIff(host: string, port: int, e: Exchange)
    ensures var got := Classify(e.Sent?, Requested(host, port, e));
            && (got == Lifecycle.NoAnswer <==> e.Sent? && e.ending.Stalled?)
            && (got == Lifecycle.Unreachable(false) <==> !e.Sent?)
            && (got == Lifecycle.Unreachable(true) <==>
                  e.Sent? && !e.ending.Stalled? && FindBlankLine(Concat(e.chunks)) == None)
            && (got.Answer? <==> e.Sent? && !e.ending.Stalled? && FindBlankLine(Concat(e.chunks)) != None)
  {
    assert FindBlankLine("") == None;
  }

  // ---------------------------------------------------------------- round trip

  /** Headers that can be told apart again: no colon in a key, no line break anywhere. */
  predicate PrintableHeaders(headers: Headers) {
    forall k :: k in headers ==> GoodKey(k) && Clean(headers[k])
  }

  predicate NoLeadingBlanks(headers: Headers) {
    forall k :: k in headers ==> headers[k] == "" || headers[k][0] != ' '
  }

  function Stripped(headers: Headers): Headers {
    map k | k in headers :: StripBlanks(headers[k])
  }

  lemma {:induction false} StripShortens(s: string)
    ensures |StripBlanks(s)| <= |s|
    ensures StripBlanks(s) == s <==> s == "" || s[0] != ' '
  {
    if s != "" && s[0] == ' ' { StripShortens(s[1..]); }
  }

  lemma StrippedIff(headers: Headers)
    ensures Stripped(headers) == headers <==> NoLeadingBlanks(headers)
  {
    forall k | k in headers
      ensures Stripped(headers)[k] == headers[k] <==> headers[k] == "" || headers[k][0] != ' '
    {
      StripShortens(headers[k]);
    }
    if Stripped(headers) == headers {
      assert forall k :: k in headers ==> Stripped(headers)[k] == headers[k];
    }
  }

  lemma FoldOfMap(headers: Headers, order: seq<string>)
    requires Lists(order, headers) && PrintableHeaders(headers)
    ensures FoldPairs(PairsInOrder(headers, order), map[]) == Stripped(headers)
  {
    var pairs := PairsInOrder(headers, order);
    var folded := FoldPairs(pairs, map[]);
    forall k
      ensures k in folded <==> k in headers
      ensures k in headers ==> folded[k] == StripBlanks(headers[k])
    {
      if k in headers {
        var i :| 0 <= i < |order| && order[i] == k;
        assert pairs[i] == (k, headers[k]);
        assert !Mentions(pairs[i + 1..], k) by {
          var later := pairs[i + 1..];
          assert forall j :: 0 <= j < |later| ==> later[j] == pairs[i + 1 + j];
        }
        FoldPairsLast(pairs, map[], i);
      } else {
        FoldPairsAbsent(pairs, map[], k);
      }
    }
  }

  lemma DigitsAreClean(n: nat)
    ensures Clean(Decimal(n))
  {
    assert forall i :: 0 <= i < |Decimal(n)| ==> IsDigit(Decimal(n)[i]);
  }

  lemma ReasonIsClean(status: int)
    ensures Clean(ReasonPhrase(status))
  {
    if status == 200 { assert Clean("OK"); }
    else if status == 201 { assert Clean("Created"); }
    else if status == 204 { assert Clean("No Content"); }
    else if status == 400 { assert Clean("Bad Request"); }
    else if status == 404 { assert Clean("Not Found"); }
    else if status == 405 { assert Clean("Method Not Allowed"); }
    else if status == 409 { assert Clean("Conflict"); }
    else if status == 500 { assert Clean("Internal Server Error"); }
    else if status == 501 { assert Clean("Not Implemented"); }
    else { assert ReasonPhrase(status) == ""; }
  }

  lemma CleanConcat(a: string, b: string)
    requires Clean(a) && Clean(b)
    ensures Clean(a + b)
  {
  }

  lemma StatusLineClean(status: int)
    ensures Clean(StatusLine(status))
  {
    DigitsAreClean(if status < 0 then -status else status);
    ReasonIsClean(status);
    CleanConcat("HTTP/1.1 ", SignedDecimal(status));
    CleanConcat("HTTP/1.1 " + SignedDecimal(status), " ");
    CleanConcat("HTTP/1.1 " + SignedDecimal(status) + " ", ReasonPhrase(status));
  }

  /** The text split after its first word and after the number. */
  lemma StatusTextParts(number: string, reason: string)
    ensures "HTTP/1.1 " + number + " " + reason + "\r" == "" + "HTTP/1.1" + (" " + (number + (" " + (reason + "\r"))))
  {
    var version, blank := "HTTP/1.1", " ";
    assert "HTTP/1.1 " == version + blank;
    PartsRegroup(version, blank, number, reason + "\r");
    assert ("HTTP/1.1 " + number + " " + reason) + "\r" == "HTTP/1.1 " + number + " " + (reason + "\r");
  }

  lemma PartsRegroup(version: string, blank: string, number: string, tail: string)
    ensures version + blank + number + blank + tail == "" + version + (blank + (number + (blank + tail)))
  {
  }

  lemma StatusTextParses(status: int, reason: string)
    requires INT_MIN <= status <= INT_MAX
    ensures ExtractInt(NextWord(StatusText(status, reason) + "\r").1) == status
  {
    var rest := " " + (reason + "\r");
    var number := " " + (SignedDecimal(status) + rest);
    StatusTextParts(SignedDecimal(status), reason);
    NextWordIs("", "HTTP/1.1", number);
    ScanPrinted(" ", status, rest);
  }

  lemma ParsesBack(r: Response, order: seq<string>)
    requires INT_MIN <= r.status <= INT_MAX && PrintableHeaders(r.headers) && Lists(order, r.headers) && order != []
    ensures ParseResponse(ResponseText(r, order)) == Okay(r.(headers := Stripped(r.headers)))
  {
    var first, pairs := StatusLine(r.status), PairsInOrder(r.headers, order);
    StatusLineClean(r.status);
    MessageParses(first, pairs, r.body);
    var data, head := ResponseText(r, order), MessageHead(first, pairs);
    assert data[..|head|] == head;
    assert data[|head| + 4..] == r.body;
    StatusTextParses(r.status, ReasonPhrase(r.status));
    FoldOfMap(r.headers, order);
  }

  lemma StampedPrintable(r: Response)
    requires PrintableHeaders(r.headers)
    ensures PrintableHeaders(Stamped(r).headers)
  {
    DigitsAreClean(|r.body|);
    assert GoodKey("Content-Length") && GoodKey("Connection") && Clean("close");
  }

  /** Whatever response a handler returns, the client reads back its status, its
      body, blank lines included, and its headers with the two the server adds,
      each value without leading blanks; so the response survives unchanged
      exactly when no header value starts with a blank. */
  lemma ResponseRoundTrip(r: Response, order: seq<string>)
    requires INT_MIN <= r.status <= INT_MAX && PrintableHeaders(r.headers) && Lists(order, Stamped(r).headers)
    ensures var sent := Stamped(r);
            var got := ParseResponse(ResponseText(sent, order));
            && got == Okay(sent.(headers := Stripped(sent.headers)))
            && (got == Okay(sent) <==> NoLeadingBlanks(sent.headers))
            && Classify(true, got) == Lifecycle.Answer(r.status)
  {
    StampedPrintable(r);
    assert "Connection" in Stamped(r).headers && "Connection" in order;
    ParsesBack(Stamped(r), order);
    StrippedIff(Stamped(r).headers);
  }

  /** The headers the client finds: the handler's, each without leading blanks, but
      length and connection as the server sets them. */
  lemma ReceivedHeaders(r: Response)
    requires PrintableHeaders(r.headers)
    ensures var headers := Stripped(Stamped(r).headers);
            && headers.Keys == r.headers.Keys + {"Content-Length", "Connection"}
            && headers["Content-Length"] == Decimal(|r.body|) && headers["Connection"] == "close"
            && forall k :: k in r.headers && k != "Content-Length" && k != "Connection" ==>
                             headers[k] == StripBlanks(r.headers[k])
  {
    DigitsAreClean(|r.body|);
    assert IsDigit(Decimal(|r.body|)[0]);
    assert StripBlanks("close") == "close";
    assert "Content-Length" != "Connection" by { assert |"Content-Length"| == 14 && |"Connection"| == 10; }
  }

  /** What the platform reports for a printed response: success exactly for a status
      from 200 to 299, an error for any other, 500 among them. */
  lemma ReportedStatus(r: Response, order: seq<string>)
    requires INT_MIN <= r.status <= INT_MAX && PrintableHeaders(r.headers) && Lists(order, Stamped(r).headers)
    ensures var status := Lifecycle.StatusOf(Classify(true, ParseResponse(ResponseText(Stamped(r), order))));
            && (status == Lifecycle.Success <==> 200 <= r.status < 300)
            && (status == Lifecycle.Error <==> r.status < 200 || 300 <= r.status)
  {
    ResponseRoundTrip(r, order);
    Lifecycle.StatusMeaning(Lifecycle.Answer(r.status));
  }

  /** Every status the server knows has its phrase, any other an empty one. */
  lemma ReasonPhrases(status: int)
    ensures status == 200 ==> ReasonPhrase(status) == "OK"
    ensures status == 201 ==> ReasonPhrase(status) == "Created"
    ensures status == 204 ==> ReasonPhrase(status) == "No Content"
    ensures status == 400 ==> ReasonPhrase(status) == "Bad Request"
    ensures status == 404 ==> ReasonPhrase(status) == "Not Found"
    ensures status == 405 ==> ReasonPhrase(status) == "Method Not Allowed"
    ensures status == 409 ==> ReasonPhrase(status) == "Conflict"
    ensures status == 500 ==> ReasonPhrase(status) == "Internal Server Error"
    ensures status == 501 ==> ReasonPhrase(status) == "Not Implemented"
    ensures status !in {200, 201, 204, 400, 404, 405, 409, 500, 501} ==> ReasonPhrase(status) == ""
  {
  }

  lemma StatusLineIs(status: int)
    ensures StatusLine(status) == "HTTP/1.1 " + SignedDecimal(status) + " " + ReasonPhrase(status)
  {
  }

  /** The client's error texts; they become the output of a failed invocation. */
  lemma ErrorTexts(host: string, port: int, e: Exchange)
    ensures e.NoSocket? ==> Requested(host, port, e) == Broken("failed to create socket")
    ensures e.NoAddress? ==> Requested(host, port, e) == Broken("could not resolve host: " + host)
    ensures e.NoConnection? ==>
              Requested(host, port, e) == Broken("connection refused at " + host + ":" + SignedDecimal(port))
    ensures e.NotSent? ==> Requested(host, port, e) == Broken("failed to send request")
    ensures e.Sent? && !e.ending.Stalled? && Concat(e.chunks) == "" ==>
              Requested(host, port, e) == Broken("empty response from server")
    ensures e.Sent? && !e.ending.Stalled? && Concat(e.chunks) != "" && FindBlankLine(Concat(e.chunks)) == None ==>
              Requested(host, port, e) == Broken("malformed response")
  {
  }
}
