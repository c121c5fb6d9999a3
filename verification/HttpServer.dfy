/** The server's reading of a request from a socket that may split the byte
    stream anywhere (common/src/http_server.cpp). */
module HttpServer {
  import opened Options
  import opened Text
  import opened HttpHeaders
  import opened HttpRequest

  const RECV_MAX := 4096
  const HEADER_LIMIT := 0x10_0000

  /** What the i-th `recv` on a connection yields; empty when the peer is gone. */
  type Socket = nat -> string

  ghost function Received(recv: Socket, n: nat): string {
    if n == 0 then "" else Received(recv, n - 1) + recv(n - 1)
  }

  ghost predicate Alive(recv: Socket, n: nat) {
    forall i: nat :: i < n ==> recv(i) != ""
  }

  ghost predicate Within(a: string, b: string) { |a| <= |b| && b[..|a|] == a }

  lemma {:induction false} ReceivedGrows(recv: Socket, m: nat, n: nat)
    requires m <= n
    ensures Within(Received(recv, m), Received(recv, n))
    ensures Alive(recv, n) ==> |Received(recv, n)| >= |Received(recv, m)| + (n - m)
    decreases n
  {
    if m < n {
      ReceivedGrows(recv, m, n - 1);
      assert Received(recv, n)[..|Received(recv, m)|] == Received(recv, n - 1)[..|Received(recv, m)|];
      assert Alive(recv, n) ==> Alive(recv, n - 1) && recv(n - 1) != "";
    }
  }

  lemma BlankLineInPrefix(a: string, b: string)
    requires Within(a, b) && FindBlankLine(a).Some?
    ensures FindBlankLine(b) == FindBlankLine(a)
  {
    var p := FindBlankLine(a).value;
    assert forall j :: 0 <= j < |a| ==> a[j] == b[j];
    assert BlankLineAt(b, p);
    assert forall j :: 0 <= j < p ==> !BlankLineAt(a, j) && !BlankLineAt(b, j);
  }

  // ---------------------------------------------------------------- the two read loops

  /** After n reads the whole header block is there and the buffer is not too large. */
  ghost predicate HeaderArrives(recv: Socket, n: nat) {
    && Alive(recv, n)
    && FindBlankLine(Received(recv, n)).Some?
    && |Received(recv, n)| <= HEADER_LIMIT
  }

  /** `read_headers`: succeeds exactly when the header block arrives in time, and
      stops after a bounded number of reads whatever the peer does. */
  method ReadHeaders(recv: Socket) returns (head: Option<(string, string)>, used: nat)
    ensures head.Some? <==> exists n: nat :: HeaderArrives(recv, n)
    ensures head.Some? ==> HeaderArrives(recv, used)
    ensures head.Some? ==> FindBlankLine(Received(recv, used)) == Some(|head.value.0|)
    ensures head.Some? ==> Received(recv, used) == head.value.0 + CRLF + CRLF + head.value.1
    ensures used <= HEADER_LIMIT + 1
  {
    var data := "";
    used := 0;
    var pos := FindBlankLine(data);
    while pos.None?
      invariant data == Received(recv, used) && Alive(recv, used) && pos == FindBlankLine(data)
      invariant used <= |data| <= HEADER_LIMIT
      invariant forall m: nat :: m < used ==> FindBlankLine(Received(recv, m)).None?
      decreases HEADER_LIMIT - |data|
    {
      var chunk := recv(used);
      if chunk == "" {
        assert forall n: nat :: Alive(recv, n) ==> n <= used;
        return None, used;
      }
      data := data + chunk;
      used := used + 1;
      if |data| > HEADER_LIMIT {
        forall n: nat | HeaderArrives(recv, n)
          ensures false
        {
          if used <= n { ReceivedGrows(recv, used, n); }
        }
        return None, used;
      }
      pos := FindBlankLine(data);
    }
    assert HeaderArrives(recv, used);
    assert data == data[..pos.value] + CRLF + CRLF + data[pos.value + 4..];
    head := Some((data[..pos.value], data[pos.value + 4..]));
  }

  function Prefix(s: string, n: nat): string { if |s| <= n then s else s[..n] }

  /** After `last` reads the body, which starts at byte `skip`, is complete or the peer is gone. */
  ghost predicate BodyRead(recv: Socket, used: nat, skip: nat, length: nat, last: nat, body: string) {
    && used <= last && skip <= |Received(recv, last)|
    && (|Received(recv, last)| - skip >= length || recv(last) == "")
    && body == Prefix(Received(recv, last)[skip..], length)
  }

  /** The body loop: read until the announced length is there or the peer is gone. */
  method ReadBody(recv: Socket, used: nat, ghost skip: nat, leftover: string, length: nat) returns (body: string)
    requires skip <= |Received(recv, used)| && leftover == Received(recv, used)[skip..]
    ensures exists last: nat :: BodyRead(recv, used, skip, length, last, body)
  {
    body := leftover;
    var i := used;
    while |body| < length
      invariant used <= i && skip <= |Received(recv, i)| && body == Received(recv, i)[skip..]
      decreases length - |body|
    {
      var chunk := recv(i);
      if chunk == "" { break; }
      assert Received(recv, i + 1)[skip..] == Received(recv, i)[skip..] + chunk;
      body := body + chunk;
      i := i + 1;
    }
    body := body[..if |body| < length then |body| else length];
    assert BodyRead(recv, used, skip, length, i, body);
  }

  datatype Incoming = Dropped | Threw | Got(request: Request)

  /** What the server made of the bytes it read. */
  ghost predicate Understood(recv: Socket, used: nat, last: nat, r: Incoming) {
    && HeaderArrives(recv, used) && used <= last
    && var data := Received(recv, used);
       var p := FindBlankLine(data).value;
       var head := HeadOf(data[..p]);
       match ContentLength(head.headers)
       case None => r.Threw?
       case Some(length) =>
         && r.Got? && r == Got(Request(head.verb, head.path, head.headers, r.request.body))
         && BodyRead(recv, used, p + 4, length, last, r.request.body)
  }

  /** The socket's first n reads deliver exactly `bytes`. */
  ghost predicate Delivers(recv: Socket, n: nat, bytes: string) {
    && Alive(recv, n)
    && Received(recv, n) == bytes
    && forall i: nat :: i < n ==> |recv(i)| <= RECV_MAX
  }

  /** A message whose header block, blank line included, takes h bytes is small
      enough for every way of splitting it. */
  predicate Fits(size: nat, h: nat) { size <= HEADER_LIMIT || h + (RECV_MAX - 1) <= HEADER_LIMIT }

  lemma {:induction false} FirstCovering(recv: Socket, n: nat, k: nat) returns (m: nat)
    requires |Received(recv, n)| >= k
    ensures m <= n && |Received(recv, m)| >= k && (m > 0 ==> |Received(recv, m - 1)| < k)
    decreases n
  {
    if n > 0 && |Received(recv, n - 1)| >= k {
      m := FirstCovering(recv, n - 1, k);
    } else {
      m := n;
    }
  }

  lemma HeaderArrivesWhenItFits(recv: Socket, n: nat, bytes: string)
    requires Delivers(recv, n, bytes) && FindBlankLine(bytes).Some?
    requires Fits(|bytes|, FindBlankLine(bytes).value + 4)
    ensures exists m: nat :: HeaderArrives(recv, m)
  {
    var h := FindBlankLine(bytes).value + 4;
    if |bytes| <= HEADER_LIMIT {
      assert HeaderArrives(recv, n);
    } else {
      var m := FirstCovering(recv, n, h);
      ReceivedGrows(recv, m, n);
      var data := Received(recv, m);
      assert forall j :: 0 <= j < |data| ==> data[j] == bytes[j];
      assert BlankLineAt(data, h - 4);
      assert m > 0 && |data| == |Received(recv, m - 1)| + |recv(m - 1)|;
      assert HeaderArrives(recv, m);
    }
  }

  lemma SameHeader(recv: Socket, n: nat, bytes: string, used: nat)
    requires Delivers(recv, n, bytes) && FindBlankLine(bytes).Some? && FindBlankLine(Received(recv, used)).Some?
    ensures FindBlankLine(Received(recv, used)) == FindBlankLine(bytes)
    ensures var p := FindBlankLine(bytes).value;
            Received(recv, used)[..p] == bytes[..p]
  {
    var data := Received(recv, used);
    if used <= n {
      ReceivedGrows(recv, used, n);
      BlankLineInPrefix(data, bytes);
      assert forall j :: 0 <= j < |data| ==> data[j] == bytes[j];
    } else {
      ReceivedGrows(recv, n, used);
      BlankLineInPrefix(bytes, data);
      assert forall j :: 0 <= j < |bytes| ==> data[j] == bytes[j];
    }
  }

  lemma PrefixOfRest(all: string, bytes: string, k: nat)
    requires Within(bytes, all) && k <= |bytes|
    ensures Prefix(all[k..], |bytes| - k) == bytes[k..]
  {
    assert all[k..][..|bytes| - k] == all[..|bytes|][k..];
  }

  lemma SameBody(recv: Socket, n: nat, bytes: string, last: nat, k: nat)
    requires Delivers(recv, n, bytes) && k <= |bytes| && k <= |Received(recv, last)|
    requires |Received(recv, last)| >= |bytes| || recv(last) == ""
    ensures Prefix(Received(recv, last)[k..], |bytes| - k) == bytes[k..]
  {
    if last < n {
      assert recv(last) != "";
      ReceivedGrows(recv, last, n);
      assert false;
    } else {
      ReceivedGrows(recv, n, last);
      PrefixOfRest(Received(recv, last), bytes, k);
    }
  }

  lemma MessageSlices(block: string, body: string)
    ensures (block + CRLF + CRLF + body)[..|block|] == block
    ensures (block + CRLF + CRLF + body)[|block| + 4..] == body
  {
  }

  lemma DeliveredIsUnderstood(
    recv: Socket, n: nat, block: string, body: string, used: nat, last: nat, r: Incoming)
    requires Delivers(recv, n, block + CRLF + CRLF + body) && Understood(recv, used, last, r)
    requires FindBlankLine(block + CRLF + CRLF + body) == Some(|block|)
    requires ContentLength(HeadOf(block).headers) == Some(|body|)
    ensures r == Got(Request(HeadOf(block).verb, HeadOf(block).path, HeadOf(block).headers, body))
  {
    var bytes, p := block + CRLF + CRLF + body, |block|;
    SameHeader(recv, n, bytes, used);
    MessageSlices(block, body);
    SameBody(recv, n, bytes, last, p + 4);
  }

  lemma PrintedIsUnderstood(recv: Socket, n: nat, q: Outgoing, used: nat, last: nat, r: Incoming)
    requires Printable(q) && Delivers(recv, n, PrintRequest(q)) && Understood(recv, used, last, r)
    ensures Recovers(r, q)
  {
    HeadRoundTrip(q);
    DeliveredIsUnderstood(recv, n, RequestHead(q), q.body, used, last, r);
  }

  method ParseHead(block: string) returns (head: Head)
    ensures head == HeadOf(block)
  {
    var first := GetLine(block);
    var line, rest := "", "";
    if first.Some? { line, rest := first.value.0, first.value.1; }
    var (verb, more) := NextWord(Chomp(line));
    var (path, _) := NextWord(more);
    var headers := ParseHeaderLines(rest);
    head := Head(verb, path, headers);
  }

  method ReadRequest(recv: Socket) returns (r: Incoming, ghost used: nat, ghost last: nat)
    ensures r.Dropped? <==> !exists n: nat :: HeaderArrives(recv, n)
    ensures !r.Dropped? ==> Understood(recv, used, last, r)
  {
    var found, fetched := ReadHeaders(recv);
    used, last := fetched, fetched;
    if found.None? { return Dropped, used, last; }
    var (block, leftover) := found.value;
    MessageSlices(block, leftover);
    var head := ParseHead(block);
    var length := ContentLength(head.headers);
    if length.None? { return Threw, used, last; }
    var body := ReadBody(recv, fetched, |block| + 4, leftover, length.value);
    last :| BodyRead(recv, used, |block| + 4, length.value, last, body);
    r := Got(Request(head.verb, head.path, head.headers, body));
    UnderstoodFrom(recv, used, last, block, r);
  }

  lemma UnderstoodFrom(recv: Socket, used: nat, last: nat, block: string, r: Incoming)
    requires HeaderArrives(recv, used) && FindBlankLine(Received(recv, used)) == Some(|block|)
    requires Received(recv, used)[..|block|] == block && r.Got? && ContentLength(HeadOf(block).headers).Some?
    requires r.request == Request(HeadOf(block).verb, HeadOf(block).path, HeadOf(block).headers, r.request.body)
    requires BodyRead(recv, used, |block| + 4, ContentLength(HeadOf(block).headers).value, last, r.request.body)
    ensures Understood(recv, used, last, r)
  {
  }

  /** The server has the method, path and body of `q`, and the headers printed with it. */
  ghost predicate Recovers(r: Incoming, q: Outgoing) {
    r == Got(Request(q.verb, q.path, FoldPairs(RequestPairs(q), map[]), q.body))
  }

  /** The socket delivers the printed form of `q`, which is not too large, in some pieces. */
  ghost predicate Sends(recv: Socket, n: nat, q: Outgoing) {
    Printable(q) && Delivers(recv, n, PrintRequest(q)) && Fits(|PrintRequest(q)|, |RequestHead(q)| + 4)
  }

  /** Reading one request.  Whatever well-formed request the client printed, and
      however the network cut it up, method, path and body come out as they went in. */
  method ReceiveRequest(recv: Socket) returns (r: Incoming)
    ensures r.Dropped? <==> !exists n: nat :: HeaderArrives(recv, n)
    ensures !r.Dropped? ==> exists used: nat, last: nat :: Understood(recv, used, last, r)
    ensures forall q: Outgoing, n: nat :: Sends(recv, n, q) ==> Recovers(r, q)
  {
    ghost var used, last;
    r, used, last := ReadRequest(recv);
    forall q: Outgoing, n: nat | Sends(recv, n, q)
      ensures Recovers(r, q)
    {
      HeadRoundTrip(q);
      HeaderArrivesWhenItFits(recv, n, PrintRequest(q));
      PrintedIsUnderstood(recv, n, q, used, last, r);
    }
  }

  // ---------------------------------------------------------------- the size bound is exact

  /** Byte by byte up to the last byte of the blank line, which arrives in as
      large a piece as possible; then byte by byte again. */
  function WorstSplit(bytes: string, h: nat): Socket
    requires 0 < h <= |bytes|
  {
    var cut := Cut(bytes, h);
    (i: nat) =>
      if i < h - 1 then [bytes[i]]
      else if i == h - 1 then bytes[h - 1..cut]
      else if cut + (i - h) < |bytes| then [bytes[cut + (i - h)]]
      else ""
  }

  function Cut(bytes: string, h: nat): (cut: nat)
    requires 0 < h <= |bytes|
    ensures h <= cut <= |bytes|
  {
    if |bytes| <= h + (RECV_MAX - 1) then |bytes| else h + (RECV_MAX - 1)
  }

  lemma {:induction false} WorstSplitBefore(bytes: string, h: nat, n: nat)
    requires 0 < h <= |bytes| && n < h
    ensures Received(WorstSplit(bytes, h), n) == bytes[..n]
    decreases n
  {
    if n > 0 { WorstSplitBefore(bytes, h, n - 1); }
  }

  lemma PrefixPlus(bytes: string, a: nat, b: nat)
    requires a <= b <= |bytes|
    ensures bytes[..a] + bytes[a..b] == bytes[..b]
    ensures b == a + 1 ==> bytes[a..b] == [bytes[a]]
  {
  }

  lemma {:induction false} WorstSplitAfter(bytes: string, h: nat, m: nat)
    requires 0 < h <= |bytes| && Cut(bytes, h) + m <= |bytes|
    ensures Received(WorstSplit(bytes, h), h + m) == bytes[..Cut(bytes, h) + m]
    decreases m
  {
    var recv, cut := WorstSplit(bytes, h), Cut(bytes, h);
    assert Received(recv, h + m) == Received(recv, h + m - 1) + recv(h + m - 1);
    if m == 0 {
      WorstSplitBefore(bytes, h, h - 1);
      assert recv(h - 1) == bytes[h - 1..cut];
      PrefixPlus(bytes, h - 1, cut);
    } else {
      WorstSplitAfter(bytes, h, m - 1);
      assert recv(h + m - 1) == [bytes[cut + m - 1]];
      PrefixPlus(bytes, cut + m - 1, cut + m);
    }
  }

  lemma WorstSplitDelivers(bytes: string, h: nat)
    requires 0 < h <= |bytes|
    ensures Delivers(WorstSplit(bytes, h), h + (|bytes| - Cut(bytes, h)), bytes)
  {
    WorstSplitAfter(bytes, h, |bytes| - Cut(bytes, h));
  }

  ghost predicate AcceptedHoweverSplit(bytes: string) {
    forall recv: Socket, n: nat :: Delivers(recv, n, bytes) ==> exists m: nat :: HeaderArrives(recv, m)
  }

  lemma WorstSplitIsDropped(bytes: string, m: nat)
    requires FindBlankLine(bytes).Some? && !Fits(|bytes|, FindBlankLine(bytes).value + 4)
    ensures !HeaderArrives(WorstSplit(bytes, FindBlankLine(bytes).value + 4), m)
  {
    var h := FindBlankLine(bytes).value + 4;
    if m < h {
      WorstSplitBefore(bytes, h, m);
      ShortHasNoBlankLine(bytes, m);
    } else {
      WorstSplitAfter(bytes, h, 0);
      ReceivedGrows(WorstSplit(bytes, h), h, m);
    }
  }

  /** The header block of a message gets through under every split exactly when it fits. */
  lemma SplitTolerance(bytes: string)
    requires FindBlankLine(bytes).Some?
    ensures AcceptedHoweverSplit(bytes) <==> Fits(|bytes|, FindBlankLine(bytes).value + 4)
  {
    var h := FindBlankLine(bytes).value + 4;
    if Fits(|bytes|, h) {
      forall recv: Socket, n: nat | Delivers(recv, n, bytes)
        ensures exists m: nat :: HeaderArrives(recv, m)
      {
        HeaderArrivesWhenItFits(recv, n, bytes);
      }
    } else {
      DroppedWhenSplit(bytes, h);
    }
  }

  lemma DroppedWhenSplit(bytes: string, h: nat)
    requires FindBlankLine(bytes) == Some(h - 4) && 4 <= h <= |bytes| && !Fits(|bytes|, h)
    ensures exists n: nat :: Delivers(WorstSplit(bytes, h), n, bytes)
    ensures forall m: nat :: !HeaderArrives(WorstSplit(bytes, h), m)
  {
    WorstSplitDelivers(bytes, h);
    forall m: nat
      ensures !HeaderArrives(WorstSplit(bytes, h), m)
    {
      WorstSplitIsDropped(bytes, m);
    }
  }

  lemma ShortHasNoBlankLine(bytes: string, m: nat)
    requires FindBlankLine(bytes).Some? && m < FindBlankLine(bytes).value + 4 && m <= |bytes|
    ensures FindBlankLine(bytes[..m]).None?
  {
    if FindBlankLine(bytes[..m]).Some? {
      BlankLineInPrefix(bytes[..m], bytes);
    }
  }

  // ---------------------------------------------------------------- a header block that is dropped

  /** A request with a path of n characters and a body of one. */
  function LongPath(n: nat): Outgoing {
    Outgoing("POST", seq(n, _ => 'x'), "127.0.0.1", "application/json", "1")
  }

  const OVERHEAD := 101

  lemma {:induction false} JoinedLength(lines: seq<string>)
    requires lines != []
    ensures |lines| == 1 ==> |JoinLines(lines)| == |lines[0]|
    ensures |lines| > 1 ==> |JoinLines(lines)| == |lines[0]| + 2 + |JoinLines(lines[1..])|
  {
  }

  lemma FourLines(a: string, b: string, c: string, d: string)
    ensures |JoinLines([a, b, c, d])| == |a| + |b| + |c| + |d| + 6
  {
    JoinedLength([a, b, c, d]);
    assert [a, b, c, d][1..] == [b, c, d];
    JoinedLength([b, c, d]);
    assert [b, c, d][1..] == [c, d];
    JoinedLength([c, d]);
    assert [c, d][1..] == [d];
  }

  lemma LongPathLines(n: nat)
    ensures PairLines(RequestPairs(LongPath(n)))
         == ["Host: 127.0.0.1", "Connection: close", "Content-Type: application/json", "Content-Length: 1"]
  {
    assert Decimal(1) == "1";
    LongPathTexts();
  }

  lemma LongPathTexts()
    ensures HeaderLine("Host", "127.0.0.1") == "Host: 127.0.0.1"
    ensures HeaderLine("Connection", "close") == "Connection: close"
    ensures HeaderLine("Content-Type", "application/json") == "Content-Type: application/json"
    ensures HeaderLine("Content-Length", "1") == "Content-Length: 1"
  {
  }

  lemma LongPathHead(n: nat)
    ensures |RequestHead(LongPath(n))| == n + OVERHEAD
  {
    var first, lines := RequestLine(LongPath(n)), PairLines(RequestPairs(LongPath(n)));
    LongPathLines(n);
    FourLines("Host: 127.0.0.1", "Connection: close", "Content-Type: application/json", "Content-Length: 1");
    JoinedLength([first] + lines);
    assert ([first] + lines)[1..] == lines;
  }

  lemma LongPathPrintable(n: nat)
    requires n > 0
    ensures Printable(LongPath(n))
  {
    assert Clean("127.0.0.1") && Clean("application/json") && NoSpaces("POST");
  }

  /** The header block of this request, blank line included, has exactly the size the
      server allows, and one split of it is never accepted: the last byte of the blank
      line arrives together with the body. */
  lemma LargeHeaderIsDropped()
    ensures var q := LongPath(HEADER_LIMIT - 4 - OVERHEAD);
            var bytes := PrintRequest(q);
            && Printable(q) && |RequestHead(q)| + 4 == HEADER_LIMIT && HEADER_LIMIT <= |bytes|
            && (exists n: nat :: Delivers(WorstSplit(bytes, HEADER_LIMIT), n, bytes))
            && (forall m: nat :: !HeaderArrives(WorstSplit(bytes, HEADER_LIMIT), m))
  {
    var q := LongPath(HEADER_LIMIT - 4 - OVERHEAD);
    LongPathPrintable(HEADER_LIMIT - 4 - OVERHEAD);
    LongPathHead(HEADER_LIMIT - 4 - OVERHEAD);
    HeadRoundTrip(q);
    DroppedWhenSplit(PrintRequest(q), HEADER_LIMIT);
  }
}
