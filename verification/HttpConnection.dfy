/**
 * One connection of 23_http_server/main.c from the moment a response is decided: the header
 * (or the error with its body), then the file in blocks, over a socket that takes as much as
 * it likes, would block, or breaks.
 */
module HttpConnection {
  import opened Wrappers

  const SEND_BUF_SIZE: nat := 8192

  // ------------------------------------------------------------- the header

  function Ascii(s: string): (b: Bytes)
    ensures |b| == |s|
    ensures forall i | 0 <= i < |s| && s[i] < 128 as char :: b[i] as int == s[i] as int
  {
    seq(|s|, i requires 0 <= i < |s| => (s[i] as int % 256) as byte)
  }

  function Decimal(n: nat): (d: Bytes)
    ensures d != []
  {
    (if n < 10 then [] else Decimal(n / 10)) + [(48 + n % 10) as byte]
  }

  /** The number a run of decimal digits stands for. */
  function Parsed(d: Bytes): int {
    if d == [] then 0 else 10 * Parsed(d[..|d| - 1]) + d[|d| - 1] as int - 48
  }

  lemma {:induction false} DecimalParses(n: nat)
    ensures Parsed(Decimal(n)) == n
  {
    var d := Decimal(n);
    if n >= 10 {
      DecimalParses(n / 10);
      assert d[..|d| - 1] == Decimal(n / 10);
    } else {
      assert d[..|d| - 1] == [];
    }
  }

  function Power10(k: nat): nat {
    if k == 0 then 1 else 10 * Power10(k - 1)
  }

  lemma {:induction false} DecimalLength(n: nat, k: nat)
    requires n < Power10(k) && k > 0
    ensures |Decimal(n)| <= k
  {
    if n >= 10 {
      DecimalLength(n / 10, k - 1);
    }
  }

  /** The text that build_http_status formats. */
  function Header(code: nat, status: Bytes, contentType: Bytes, contentLen: nat): Bytes {
    Ascii("HTTP/1.1 ") + Decimal(code) + Ascii(" ") + status + Ascii("\r\n") +
    Ascii("Content-Type: ") + contentType + Ascii("\r\n") +
    Ascii("Content-Length: ") + Decimal(contentLen) + Ascii("\r\n") +
    Ascii("Connection: close\r\n") + Ascii("\r\n")
  }

  /** Headers of the server's size leave room in the buffer for an error body. */
  lemma HeaderFits(code: nat, status: Bytes, contentType: Bytes, contentLen: nat)
    requires code < 1000 && contentLen < 0x1_0000_0000_0000_0000
    requires 2 * |status| + |contentType| <= 8000
    ensures |Header(code, status, contentType, contentLen)| + |status| < SEND_BUF_SIZE
  {
    DecimalLength(code, 3);
    assert Power10(5) == 100000 && Power10(10) == 10000000000;
    assert Power10(15) == 1000000000000000 && Power10(20) == 100000000000000000000;
    DecimalLength(contentLen, 20);
  }

  // ------------------------------------------------------- what a client reads

  /** A response as a client takes it apart: the lines of its head, and what follows the empty line. */
  datatype Response = Response(lines: seq<Bytes>, body: Bytes)

  /** Where the first line end stands. */
  function FirstLineEnd(s: Bytes): (k: Option<nat>)
    ensures k.Some? ==> k.value + 2 <= |s|
  {
    if |s| < 2 then None
    else if s[0] == 13 && s[1] == 10 then Some(0)
    else
      var k := FirstLineEnd(s[1..]);
      if k.None? then None else Some(k.value + 1)
  }

  /** The lines up to the first empty one, and the rest. */
  function Received(s: Bytes): Option<Response>
    decreases |s|
  {
    var k := FirstLineEnd(s);
    if k.None? then None
    else if k.value == 0 then Some(Response([], s[2..]))
    else
      var r := Received(s[k.value + 2..]);
      if r.None? then None else Some(Response([s[..k.value]] + r.value.lines, r.value.body))
  }

  /** How many digits a text starts with. */
  function DigitRun(s: Bytes): (n: nat)
    ensures n <= |s|
  {
    if s == [] || s[0] < 48 || s[0] > 57 then 0 else 1 + DigitRun(s[1..])
  }

  /** The number after a prefix of a line. */
  function NumberAfter(line: Bytes, prefix: Bytes): Option<int> {
    if |prefix| <= |line| && line[..|prefix|] == prefix && DigitRun(line[|prefix|..]) > 0
    then Some(Parsed(line[|prefix|..][..DigitRun(line[|prefix|..])]))
    else None
  }

  /** The length that the first line with one announces. */
  function ContentLength(lines: seq<Bytes>): Option<int> {
    if lines == [] then None
    else
      var n := NumberAfter(lines[0], Ascii("Content-Length: "));
      if n.Some? then n else ContentLength(lines[1..])
  }

  function StatusCode(lines: seq<Bytes>): Option<int> {
    if lines == [] then None else NumberAfter(lines[0], Ascii("HTTP/1.1 "))
  }

  /** A client finds the code, the announced length, and exactly the body. */
  predicate Announces(stream: Bytes, code: nat, body: Bytes) {
    var r := Received(stream);
    && r.Some? && r.value.body == body
    && StatusCode(r.value.lines) == Some(code) && ContentLength(r.value.lines) == Some(|body|)
  }

  /** A text without the characters that end lines. */
  predicate Plain(s: Bytes) {
    13 !in s && 10 !in s
  }

  lemma {:induction false} DecimalDigits(n: nat)
    ensures forall i | 0 <= i < |Decimal(n)| :: 48 <= Decimal(n)[i] <= 57
  {
    if n >= 10 {
      DecimalDigits(n / 10);
    }
  }

  lemma {:induction false} DigitRunIs(d: Bytes, rest: Bytes)
    requires forall i | 0 <= i < |d| :: 48 <= d[i] <= 57
    requires rest == [] || rest[0] < 48 || rest[0] > 57
    ensures DigitRun(d + rest) == |d|
  {
    if d == [] {
      assert d + rest == rest;
    } else {
      DigitRunIs(d[1..], rest);
      assert (d + rest)[1..] == d[1..] + rest;
    }
  }

  /** A number written after a prefix is read back. */
  lemma NumberReads(prefix: Bytes, n: nat, rest: Bytes)
    requires rest == [] || rest[0] < 48 || rest[0] > 57
    ensures NumberAfter(prefix + Decimal(n) + rest, prefix) == Some(n)
  {
    hide Parsed, DigitRun, Decimal;
    var d := Decimal(n);
    var line := prefix + d + rest;
    DecimalDigits(n);
    DecimalParses(n);
    DigitRunIs(d, rest);
    assert line[|prefix|..] == d + rest && (d + rest)[..|d|] == d;
  }

  const CRLF: Bytes := [13, 10]

  lemma {:induction false} FirstLineEndIs(line: Bytes, rest: Bytes)
    requires Plain(line)
    ensures FirstLineEnd(line + CRLF + rest) == Some(|line|)
  {
    var s := line + CRLF + rest;
    if line != [] {
      FirstLineEndIs(line[1..], rest);
      assert s[1..] == line[1..] + CRLF + rest;
    }
  }

  lemma OneLine(line: Bytes, rest: Bytes)
    requires Plain(line) && line != [] && Received(rest).Some?
    ensures Received(line + CRLF + rest)
         == Some(Response([line] + Received(rest).value.lines, Received(rest).value.body))
  {
    hide FirstLineEnd;
    FirstLineEndIs(line, rest);
    var s := line + CRLF + rest;
    assert s[..|line|] == line && s[|line| + 2..] == rest;
  }

  lemma NoLine(rest: Bytes)
    ensures Received(CRLF + rest) == Some(Response([], rest))
  {
    FirstLineEndIs([], rest);
    assert [] + CRLF + rest == CRLF + rest && (CRLF + rest)[2..] == rest;
  }

  lemma {:induction false} PlainConcat(a: Bytes, b: Bytes)
    requires Plain(a) && Plain(b)
    ensures Plain(a + b)
  {
  }

  lemma PlainNumber(n: nat)
    ensures Plain(Decimal(n))
  {
    DecimalDigits(n);
  }

  function StatusLine(code: nat, status: Bytes): Bytes {
    Ascii("HTTP/1.1 ") + Decimal(code) + (Ascii(" ") + status)
  }

  function TypeLine(contentType: Bytes): Bytes {
    Ascii("Content-Type: ") + contentType
  }

  function LengthLine(contentLen: nat): Bytes {
    Ascii("Content-Length: ") + Decimal(contentLen)
  }

  /** The header is four lines and an empty one. */
  lemma HeaderLines(code: nat, status: Bytes, contentType: Bytes, contentLen: nat, body: Bytes)
    ensures Header(code, status, contentType, contentLen) + body
         == StatusLine(code, status) + CRLF + (TypeLine(contentType) + CRLF + (LengthLine(contentLen) + CRLF +
            (Ascii("Connection: close") + CRLF + (CRLF + body))))
  {
    hide Decimal;
    assert Ascii("\r\n") == CRLF && Ascii("Connection: close\r\n") == Ascii("Connection: close") + CRLF;
  }

  lemma LinesPlain(code: nat, status: Bytes, contentType: Bytes, contentLen: nat)
    requires Plain(status) && Plain(contentType)
    ensures Plain(StatusLine(code, status)) && Plain(TypeLine(contentType)) && Plain(LengthLine(contentLen))
    ensures Plain(Ascii("Connection: close"))
  {
    hide Decimal, Ascii, Plain;
    FixedPlain();
    PlainNumber(code);
    PlainNumber(contentLen);
    PlainConcat(Ascii(" "), status);
    PlainConcat(Ascii("HTTP/1.1 "), Decimal(code));
    PlainConcat(Ascii("HTTP/1.1 ") + Decimal(code), Ascii(" ") + status);
    PlainConcat(Ascii("Content-Type: "), contentType);
    PlainConcat(Ascii("Content-Length: "), Decimal(contentLen));
  }

  lemma FixedPlain()
    ensures Plain(Ascii(" ")) && Plain(Ascii("HTTP/1.1 ")) && Plain(Ascii("Content-Type: "))
    ensures Plain(Ascii("Content-Length: ")) && Plain(Ascii("Connection: close"))
  {
  }

  /** What is received of a header with a body behind it. */
  lemma HeaderReceived(code: nat, status: Bytes, contentType: Bytes, contentLen: nat, body: Bytes)
    requires Plain(status) && Plain(contentType)
    ensures Received(Header(code, status, contentType, contentLen) + body)
         == Some(Response([Ascii("HTTP/1.1 ") + Decimal(code) + (Ascii(" ") + status),
                           Ascii("Content-Type: ") + contentType,
                           Ascii("Content-Length: ") + Decimal(contentLen),
                           Ascii("Connection: close")], body))
  {
    hide Header, Received, Plain, Ascii, Decimal;
    HeaderLines(code, status, contentType, contentLen, body);
    LinesPlain(code, status, contentType, contentLen);
    LinesNotEmpty(code, status, contentType, contentLen);
    var last := Ascii("Connection: close");
    NoLine(body);
    OneLine(last, CRLF + body);
    OneLine(LengthLine(contentLen), last + CRLF + (CRLF + body));
    OneLine(TypeLine(contentType), LengthLine(contentLen) + CRLF + (last + CRLF + (CRLF + body)));
    OneLine(StatusLine(code, status),
            TypeLine(contentType) + CRLF + (LengthLine(contentLen) + CRLF + (last + CRLF + (CRLF + body))));
    FourLines(StatusLine(code, status), TypeLine(contentType), LengthLine(contentLen), last);
  }

  lemma FourLines(a: Bytes, b: Bytes, c: Bytes, d: Bytes)
    ensures [a] + ([b] + ([c] + ([d] + []))) == [a, b, c, d]
    ensures [a, b, c, d][1..] == [b, c, d] && [b, c, d][1..] == [c, d]
  {
  }

  lemma LinesNotEmpty(code: nat, status: Bytes, contentType: Bytes, contentLen: nat)
    ensures StatusLine(code, status) != [] && TypeLine(contentType) != [] && LengthLine(contentLen) != []
  {
    hide Decimal;
  }

  /** A status line or a type line announces no length. */
  lemma OnlyLengthLine(code: nat, status: Bytes, contentType: Bytes)
    ensures NumberAfter(StatusLine(code, status), Ascii("Content-Length: ")) == None
    ensures NumberAfter(TypeLine(contentType), Ascii("Content-Length: ")) == None
  {
    hide Decimal, DigitRun, Parsed;
    var prefix, a, b := Ascii("Content-Length: "), StatusLine(code, status), TypeLine(contentType);
    assert a[0] == 72 && b[8] == 84 && prefix[0] == 67 && prefix[8] == 76;
    assert |prefix| <= |a| ==> a[..|prefix|][0] == a[0];
    assert |prefix| <= |b| ==> b[..|prefix|][8] == b[8];
  }

  /** A client that gets header and body finds the code, the length of the body, and the body. */
  lemma HeaderAnnounces(code: nat, status: Bytes, contentType: Bytes, body: Bytes)
    requires Plain(status) && Plain(contentType)
    ensures Announces(Header(code, status, contentType, |body|) + body, code, body)
  {
    hide Header, Received, Decimal, NumberAfter, Plain;
    HeaderReceived(code, status, contentType, |body|, body);
    OnlyLengthLine(code, status, contentType);
    NumberReads(Ascii("HTTP/1.1 "), code, Ascii(" ") + status);
    NumberReads(Ascii("Content-Length: "), |body|, []);
    StatusLineIs(code, status);
    assert LengthLine(|body|) + [] == LengthLine(|body|);
    var a, b, c, d := StatusLine(code, status), TypeLine(contentType), LengthLine(|body|), Ascii("Connection: close");
    FourLines(a, b, c, d);
    assert ContentLength([c, d]) == Some(|body|);
    assert ContentLength([b, c, d]) == ContentLength([c, d]);
    assert ContentLength([a, b, c, d]) == ContentLength([b, c, d]);
  }

  lemma PlainAscii()
    ensures Plain(Ascii("OK")) && Plain(Ascii("text/plain"))
  {
  }

  lemma StatusLineIs(code: nat, status: Bytes)
    ensures StatusLine(code, status) == Ascii("HTTP/1.1 ") + Decimal(code) + (Ascii(" ") + status)
  {
  }

  // --------------------------------------------------------- the outside world

  /** How a send ends; a socket never takes more than it is offered. */
  datatype Send = Accepted(n: nat) | WouldBlock | Broken

  /** How a pread ends; on a file it returns at least a byte until the end is reached. */
  datatype Read = Got(n: nat) | ReadError

  /** How many of the bytes offered are taken. */
  function Taken(s: Send, offered: nat): (k: nat)
    ensures k <= offered
  {
    if s.Accepted? then Min(s.n, offered) else 0
  }

  /** How many bytes a read of a block returns with so many left in the file. */
  function BlockSize(r: Read, left: nat): (k: nat)
    ensures k <= left && k <= SEND_BUF_SIZE
    ensures left > 0 && r.Got? ==> k > 0
  {
    var most := Min(SEND_BUF_SIZE, left);
    if r.ReadError? then 0 else if r.n == 0 then Min(1, most) else Min(r.n, most)
  }

  // ------------------------------------------------------------ the connection

  datatype ConnState = Reading | SendingHeader | SendingFile | Closing

  class Connection {
    var fdOpen: bool
    var state: ConnState
    var fileOpen: bool
    var fileOffset: nat
    var fileSize: nat
    const sendBuf: array<byte>
    var sendLen: nat
    var sendSent: nat

    var content: Bytes        // what the open file holds, which does not change

    ghost var head: Bytes     // header, and the body of an error
    ghost var wire: Bytes     // everything the socket has taken
    ghost var finished: bool  // closed at the end of the body

    ghost function Stream(): Bytes
      reads this
    {
      head + content
    }

    /** What is taken, what is buffered and what is unread make up the stream, in order. */
    ghost predicate Valid()
      reads this, sendBuf
    {
      && sendBuf.Length == SEND_BUF_SIZE
      && sendSent <= sendLen <= SEND_BUF_SIZE
      && (fdOpen <==> state != Closing)
      && (finished ==> state == Closing && wire == Stream())
      && match state
         case Reading => wire == [] && head == [] && content == [] && !fileOpen && fileOffset == 0
         case SendingHeader =>
           fileOffset == 0 && (!fileOpen ==> content == []) && wire + sendBuf[sendSent..sendLen] == head
         case SendingFile =>
           fileOpen && fileOffset <= |content| && wire + sendBuf[sendSent..sendLen] == head + content[..fileOffset]
         case Closing => wire <= Stream()
    }

    constructor ()
      ensures Valid() && state == Reading && fresh(sendBuf) && sendBuf.Length == 8192 && !finished
    {
      fdOpen, state, fileOpen, fileOffset, fileSize := true, Reading, false, 0, 0;
      sendBuf := new byte[SEND_BUF_SIZE];
      sendLen, sendSent := 0, 0;
      content, head, wire, finished := [], [], [], false;
    }

    method CloseConnection()
      modifies this`fdOpen, this`fileOpen, this`state
      ensures state == Closing && !fileOpen && !fdOpen
      ensures old(Valid() && wire <= Stream()) ==> Valid()
    {
      if fileOpen {
        fileOpen := false;
      }
      fdOpen := false;
      state := Closing;
    }

    /** Copies bytes into the send buffer. */
    method Fill(at: nat, bytes: Bytes)
      requires at + |bytes| <= sendBuf.Length
      modifies sendBuf
      ensures sendBuf[at..at + |bytes|] == bytes && sendBuf[..at] == old(sendBuf[..at])
    {
      forall i | 0 <= i < |bytes| {
        sendBuf[at + i] := bytes[i];
      }
    }

    /** snprintf stores what fits before a NUL, and returns the whole length. */
    method BuildHttpStatus(code: nat, status: Bytes, contentType: Bytes, contentLen: nat)
      requires sendBuf.Length == SEND_BUF_SIZE
      modifies this`sendLen, this`sendSent, this`state, sendBuf
      ensures sendLen == |Header(code, status, contentType, contentLen)| && sendSent == 0 && state == SendingHeader
      ensures var n := Min(sendLen, SEND_BUF_SIZE - 1);
              sendBuf[..n] == Header(code, status, contentType, contentLen)[..n] && sendBuf[n] == 0
    {
      hide Header;
      var text := Header(code, status, contentType, contentLen);
      var n := Min(|text|, sendBuf.Length - 1);
      Fill(0, text[..n]);
      sendBuf[n] := 0;
      sendLen := |text|;
      sendSent := 0;
      state := SendingHeader;
    }

    /** send_error: the status line is also the body, and its length is announced. */
    method SendError(code: nat, status: Bytes, registered: bool)
      requires Valid() && state == Reading
      modifies this, sendBuf
      ensures content == [] && wire == [] && !finished && state == if registered then SendingHeader else Closing
      ensures var text := Header(code, status, Ascii("text/plain"), |status|);
              && sendLen == |text| + (if |text| + |status| < SEND_BUF_SIZE then |status| else 0)
              && (|text| < SEND_BUF_SIZE ==>
                    Valid() && head == text + if |text| + |status| < SEND_BUF_SIZE then status else [])
              && (|text| + |status| < SEND_BUF_SIZE && Plain(status) ==> Announces(Stream(), code, status))
    {
      hide Header, Announces, Plain, Ascii;
      if Plain(status) {
        PlainAscii();
        HeaderAnnounces(code, status, Ascii("text/plain"), status);
      }
      ghost var text := Header(code, status, Ascii("text/plain"), |status|);
      var body := status;
      BuildHttpStatus(code, status, Ascii("text/plain"), |body|);
      assert |text| < SEND_BUF_SIZE ==> sendBuf[..sendLen] == text;
      if sendLen + |body| < sendBuf.Length {
        Fill(sendLen, body);
        sendLen := sendLen + |body|;
        Joined(sendBuf[..sendLen], text, body);
      }
      if sendLen < SEND_BUF_SIZE {
        head := sendBuf[..sendLen];
        assert wire + sendBuf[sendSent..sendLen] == head;
        assert head + content == head;
      }
      if !registered {
        CloseConnection();
      }
    }

    /** The end of handle_request for a readable file: its size is announced. */
    method SendFile(file: Bytes, contentType: Bytes, registered: bool)
      requires Valid() && state == Reading
      modifies this, sendBuf
      ensures content == file && wire == [] && !finished && state == if registered then SendingHeader else Closing
      ensures var text := Header(200, Ascii("OK"), contentType, |file|);
              && sendLen == |text| && (|text| < SEND_BUF_SIZE ==> Valid() && head == text)
              && (|text| < SEND_BUF_SIZE && Plain(contentType) ==> Announces(Stream(), 200, file))
    {
      hide Header, Announces, Plain, Ascii;
      if Plain(contentType) {
        PlainAscii();
        HeaderAnnounces(200, Ascii("OK"), contentType, file);
      }
      fileOpen := true;
      fileOffset := 0;
      fileSize := |file|;
      BuildHttpStatus(200, Ascii("OK"), contentType, fileSize);
      content := file;
      if sendLen < SEND_BUF_SIZE {
        head := sendBuf[..sendLen];
        assert wire + sendBuf[sendSent..sendLen] == head;
      }
      if !registered {
        CloseConnection();
      }
    }

    /** One send of what is still in the buffer. */
    method SendRest(s: Send) returns (sent: int)
      requires Valid() && (state == SendingHeader || state == SendingFile)
      modifies this`sendSent, this`wire
      ensures Valid()
      ensures sent == if s.Accepted? then Taken(s, sendLen - old(sendSent)) else -1
      ensures sendSent == old(sendSent) + Taken(s, sendLen - old(sendSent))
      ensures old(wire) <= wire && |wire| == |old(wire)| + Taken(s, sendLen - old(sendSent))
    {
      var k := Taken(s, sendLen - sendSent);
      ghost var rest := sendBuf[sendSent..sendLen];
      assert rest == sendBuf[sendSent..sendSent + k] + sendBuf[sendSent + k..sendLen];
      assert wire + rest == wire + sendBuf[sendSent..sendSent + k] + sendBuf[sendSent + k..sendLen];
      wire := wire + sendBuf[sendSent..sendSent + k];
      sendSent := sendSent + k;
      sent := if s.Accepted? then k else -1;
    }

    ghost predicate Sending()
      reads this
    {
      state == SendingHeader || state == SendingFile
    }

    /** How much of the buffer has still to be sent. */
    ghost function Buffered(): int
      reads this
    {
      sendLen - sendSent
    }

    /** This send, if one is needed at all, empties the buffer. */
    ghost predicate Empties(s: Send)
      reads this
    {
      (state == SendingFile && sendSent == sendLen) || (s.Accepted? && s.n >= sendLen - sendSent)
    }

    /** The socket has become writable. */
    method HandleWrite(first: Send, read: Read, second: Send)
      requires Valid()
      modifies this, sendBuf
      ensures Valid() && head == old(head) && content == old(content) && old(wire) <= wire
      ensures old(!Sending()) ==> wire == old(wire) && state == old(state) && finished == old(finished)
      // the buffer is not emptied: what was taken is on the wire, nothing else happens
      ensures old(Sending() && !Empties(first)) ==> Stalled(first)
      // it is, and there is no file, or no more of it: done
      ensures old(Sending() && Empties(first)) && !old(fileOpen) ==> finished
      ensures old(Sending() && Empties(first) && fileOpen) && read.Got? && old(fileOffset) == |content| ==> finished
      // it is, and the next block is read and offered
      ensures old(Sending() && Empties(first) && fileOpen) && read.ReadError? ==> state == Closing && !finished
      ensures old(Sending() && Empties(first) && fileOpen) && read.Got? && old(fileOffset) < |content| ==>
                var block := BlockSize(read, |content| - old(fileOffset));
                && fileOffset == old(fileOffset) + block
                && |wire| == old(|wire| + sendLen - sendSent) + Taken(second, block)
                && Buffered() == block - Taken(second, block)
                && !finished && state == if second.Broken? then Closing else SendingFile
    {
      hide BlockSize, Taken, Valid, Stream;
      OpenIff();
      if !fdOpen {
        return;
      }
      if state == SendingHeader {
        var onToFile := SendHeader(first);
        if !onToFile {
          return;
        }
      }
      if state == SendingFile {
        SendContent(first, read, second);
      }
    }

    /** The send took only part of the buffer, or failed. */
    twostate predicate Stalled(first: Send)
      requires old(sendSent <= sendLen)
      reads this
    {
      && |wire| == old(|wire| + Taken(first, sendLen - sendSent)) && fileOffset == old(fileOffset)
      && Buffered() == old(Buffered() - Taken(first, sendLen - sendSent))
      && !finished && state == if first.Broken? then Closing else old(state)
    }

    /** The first part of handle_write; true when the file follows. */
    method SendHeader(first: Send) returns (onToFile: bool)
      requires Valid() && state == SendingHeader
      modifies this`sendSent, this`sendLen, this`wire, this`fdOpen, this`fileOpen, this`state, this`finished
      ensures Valid() && old(wire) <= wire
      ensures onToFile <==> old(Empties(first) && fileOpen)
      ensures onToFile ==> state == SendingFile && Buffered() == 0 && |wire| == old(|wire| + Buffered()) && !finished
      ensures !old(Empties(first)) ==> Stalled(first)
      ensures old(Empties(first) && !fileOpen) ==> finished
    {
      hide Valid, Stream, Taken;
      OpenIff();
      var emptied := Offer(first);
      if !emptied {
        return false;
      }
      if fileOpen {
        StartFile();
        return true;
      }
      Finish();
      onToFile := false;
    }

    /** The second part of handle_write. */
    method SendContent(first: Send, read: Read, second: Send)
      requires Valid() && state == SendingFile
      modifies this, sendBuf
      ensures Valid() && head == old(head) && content == old(content) && old(wire) <= wire
      ensures !old(Empties(first)) ==> Stalled(first)
      ensures old(Empties(first)) && read.ReadError? ==> state == Closing && !finished
      ensures old(Empties(first)) && read.Got? && old(fileOffset) == |content| ==> finished
      ensures old(Empties(first)) && read.Got? && old(fileOffset) < |content| ==>
                var block := BlockSize(read, |content| - old(fileOffset));
                && fileOffset == old(fileOffset) + block
                && |wire| == old(|wire| + Buffered()) + Taken(second, block)
                && Buffered() == block - Taken(second, block)
                && !finished && state == if second.Broken? then Closing else SendingFile
    {
      hide Valid, Stream, Taken, BlockSize;
      OpenIff();
      if sendSent < sendLen {
        var emptied := Offer(first);
        if !emptied {
          return;
        }
      }
      SendBlock(read, second);
    }

    /** The header has gone out: on to the file. */
    method StartFile()
      requires Valid() && state == SendingHeader && fileOpen && sendSent == sendLen
      modifies this`state, this`sendLen, this`sendSent
      ensures Valid() && state == SendingFile && sendSent == sendLen
    {
      assert sendBuf[sendSent..sendLen] == [];
      state := SendingFile;
      sendLen := 0;
      sendSent := 0;
      assert sendBuf[sendSent..sendLen] == [] && content[..fileOffset] == [];
    }

    /** There is nothing more to send. */
    method Finish()
      requires Valid() && Sending() && sendSent == sendLen
      requires if state == SendingHeader then !fileOpen else fileOffset == |content|
      modifies this`fdOpen, this`fileOpen, this`state, this`finished
      ensures Valid() && finished && state == Closing
    {
      assert sendBuf[sendSent..sendLen] == [] && wire + [] == wire;
      assert wire == Stream() by {
        assert content[..|content|] == content && head + [] == head;
      }
      CloseConnection();
      finished := true;
    }

    lemma OpenIff()
      requires Valid()
      ensures fdOpen <==> state != Closing
      ensures Sending() ==> !finished && sendSent <= sendLen && fileOffset <= |content|
      ensures state == SendingFile ==> fileOpen
      ensures Sending() && !fileOpen ==> content == []
      ensures state == SendingHeader ==> fileOffset == 0
    {
    }

    /** One send, and what is done about its failure; true when the buffer is empty after it. */
    method Offer(s: Send) returns (emptied: bool)
      requires Valid() && Sending() && !finished
      modifies this`sendSent, this`wire, this`fdOpen, this`fileOpen, this`state
      ensures Valid() && old(wire) <= wire && |wire| == |old(wire)| + Taken(s, sendLen - old(sendSent))
      ensures sendSent == old(sendSent) + Taken(s, sendLen - old(sendSent))
      ensures emptied <==> s.Accepted? && s.n >= sendLen - old(sendSent)
      ensures state == if s.Broken? then Closing else old(state)
      ensures emptied ==> sendSent == sendLen && wire == head + content[..fileOffset]
      ensures emptied ==> |wire| == |old(wire)| + sendLen - old(sendSent)
      ensures !s.Broken? ==> fileOpen == old(fileOpen)
    {
      WireIsPrefix();
      var sent := SendRest(s);
      WireIsPrefix();
      emptied := false;
      if sent < 0 {
        if s.WouldBlock? {
          return;
        }
        CloseConnection();
        return;
      }
      if sendSent < sendLen {
        return;
      }
      assert sendBuf[sendSent..sendLen] == [];
      emptied := true;
    }

    /** The next block of the file: read it into the buffer and offer it. */
    method SendBlock(read: Read, second: Send)
      requires Valid() && state == SendingFile && sendSent == sendLen && !finished
      modifies this, sendBuf
      ensures Valid() && head == old(head) && content == old(content) && old(wire) <= wire
      ensures read.ReadError? ==> state == Closing && !finished && wire == old(wire)
      ensures read.Got? && old(fileOffset) == |content| ==> finished
      ensures read.Got? && old(fileOffset) < |content| ==>
                var block := BlockSize(read, |content| - old(fileOffset));
                && fileOffset == old(fileOffset) + block && |wire| == |old(wire)| + Taken(second, block)
                && Buffered() == block - Taken(second, block)
                && !finished && state == if second.Broken? then Closing else SendingFile
    {
      hide BlockSize, Taken, Min;
      assert sendBuf[sendSent..sendLen] == [] && wire == head + content[..fileOffset];
      WireIsPrefix();
      if read.ReadError? {
        CloseConnection();
        return;
      }
      var nr := BlockSize(read, |content| - fileOffset);
      if nr == 0 {
        Finish();
        return;
      }
      LoadBlock(nr);
      var emptied := Offer(second);
    }

    /** Puts nr more bytes of the file into the empty buffer. */
    method LoadBlock(nr: nat)
      requires Valid() && state == SendingFile && sendSent == sendLen && !finished
      requires 0 < nr <= SEND_BUF_SIZE && fileOffset + nr <= |content|
      modifies this`sendLen, this`sendSent, this`fileOffset, sendBuf
      ensures Valid() && sendSent == 0 && sendLen == nr && fileOffset == old(fileOffset) + nr
    {
      assert sendBuf[sendSent..sendLen] == [] && wire == head + content[..fileOffset];
      var buf := content[fileOffset..fileOffset + nr];
      OneMoreBlock(head, content, fileOffset, nr);
      Fill(0, buf);
      sendLen := nr;
      sendSent := 0;
      fileOffset := fileOffset + nr;
      assert sendBuf[sendSent..sendLen] == buf;
    }

    lemma WireIsPrefix()
      requires Valid()
      ensures wire <= Stream()
    {
      if Sending() {
        var rest := sendBuf[sendSent..sendLen];
        assert wire == (wire + rest)[..|wire|];
      }
    }
  }

  lemma Joined(s: Bytes, a: Bytes, b: Bytes)
    requires |s| == |a| + |b| && s[..|a|] == a && s[|a|..] == b
    ensures s == a + b
  {
  }

  lemma OneMoreBlock(head: Bytes, content: Bytes, offset: nat, nr: nat)
    requires offset + nr <= |content|
    ensures head + content[..offset + nr] == head + content[..offset] + content[offset..offset + nr]
  {
  }

  datatype WriteEvent = WriteEvent(first: Send, read: Read, second: Send)

  /** The socket may take nothing or block, but nothing fails. */
  predicate Harmless(e: WriteEvent) {
    !e.first.Broken? && e.read.Got? && !e.second.Broken?
  }

  /** The first send takes something. */
  predicate Takes(e: WriteEvent) {
    e.first.Accepted? && e.first.n > 0
  }

  /** How many of the first k events take something with their first send. */
  function TakesIn(events: seq<WriteEvent>, k: nat): nat
    requires k <= |events|
  {
    if k == 0 then 0 else TakesIn(events, k - 1) + if Takes(events[k - 1]) then 1 else 0
  }

  /** Nothing fails, and the socket takes something more than twice as often as there are bytes left. */
  ghost predicate LongEnough(events: seq<WriteEvent>, left: int) {
    (forall e | e in events :: Harmless(e)) && TakesIn(events, |events|) > 2 * left + 1
  }

  /** What a connection has achieved: two for a byte on the wire, one for a buffer with something in it. */
  ghost function Progress(c: Connection): int
    reads c
  {
    2 * |c.wire| + if c.Buffered() > 0 then 1 else 0
  }

  /** One write event that does no harm. */
  method ServeOne(c: Connection, e: WriteEvent)
    requires c.Valid()
    modifies c, c.sendBuf
    ensures c.Valid() && c.head == old(c.head) && c.content == old(c.content) && old(c.wire) <= c.wire
    ensures old(!c.Sending()) ==> c.finished == old(c.finished)
    ensures old(c.Sending()) && Harmless(e) ==>
              c.finished || (c.Sending() && Progress(c) >= old(Progress(c)) + if Takes(e) then 1 else 0)
  {
    hide Connection.Valid, BlockSize;
    c.OpenIff();
    c.HandleWrite(e.first, e.read, e.second);
  }

  /**
   * Any sequence of write events puts a prefix of header and file on the wire, and all of it
   * when the connection finishes. If nothing fails it does finish, however often the socket blocks,
   * once it has taken something more than twice as often as there were bytes left.
   */
  method Serve(c: Connection, events: seq<WriteEvent>)
    requires c.Valid()
    modifies c, c.sendBuf
    ensures c.Valid() && c.Stream() == old(c.Stream()) && old(c.wire) <= c.wire <= c.Stream()
    ensures c.finished ==> c.wire == c.Stream()
    ensures old(c.Sending()) && LongEnough(events, |old(c.Stream())| - |old(c.wire)|) ==> c.finished
  {
    c.WireIsPrefix();
    for i := 0 to |events|
      invariant c.Valid() && c.head == old(c.head) && c.content == old(c.content) && old(c.wire) <= c.wire
      invariant old(c.Sending()) && (forall e | e in events :: Harmless(e)) ==>
                  c.finished || (c.Sending() && Progress(c) >= 2 * |old(c.wire)| + TakesIn(events, i))
    {
      assert events[i] in events;
      ServeOne(c, events[i]);
    }
    c.WireIsPrefix();
  }
}
