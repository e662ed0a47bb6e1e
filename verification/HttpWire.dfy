/**
 What goes over the wire, character by character, and what is refused: a message that was
 cut short, a header without a colon, a length that is no number, a foreign first line.
 */
module HttpWire {
  import opened Bytes
  import opened Options
  import opened Results
  import opened HttpText
  import opened HttpMessage
  import opened HttpRoundTrip
  import Relay

  // --- The text of a message ---

  function HeadersText(headers: map<string, string>, order: seq<string>): string
    requires forall k :: k in order ==> k in headers
  {
    if order == [] then "" else order[0] + ":" + headers[order[0]] + "\r\n" + HeadersText(headers, order[1..])
  }

  function LengthText(content: Buff): string {
    if content == [] then "" else "content-length:" + Decimal(|content|) + "\r\n"
  }

  predicate AsciiHeaders(headers: map<string, string>) {
    forall k :: k in headers ==> Ascii(k) && Ascii(headers[k])
  }

  lemma ReadsBack(s: string)
    requires Ascii(s)
    ensures Latin1(Utf8(s)) == s
  {
    ReadBackIsAscii(s);
  }

  lemma Marks()
    ensures Latin1(EOL) == "\r\n" && Latin1(COLON) == ":"
  {
    assert Latin1(EOL)[0] == '\r' && Latin1(EOL)[1] == '\n';
    assert Latin1(COLON)[0] == ':';
  }

  lemma HeaderLineText(k: string, v: string)
    requires Ascii(k) && Ascii(v)
    ensures Latin1(HeaderLine(k, v)) == k + ":" + v + "\r\n"
  {
    hide Latin1, Utf8;
    Marks();
    ReadsBack(k);
    ReadsBack(v);
    Latin1Concat(Utf8(k) + COLON + Utf8(v), EOL);
    Latin1Concat(Utf8(k) + COLON, Utf8(v));
    Latin1Concat(Utf8(k), COLON);
  }

  lemma {:induction false} HeaderLinesText(headers: map<string, string>, order: seq<string>)
    requires AsciiHeaders(headers) && forall k :: k in order ==> k in headers
    ensures Latin1(HeaderLines(headers, order)) == HeadersText(headers, order)
    decreases |order|
  {
    hide Latin1, HeaderLine;
    if order == [] {
      assert Latin1([]) == "" by { ReadsBack(""); }
    } else {
      HeaderLineText(order[0], headers[order[0]]);
      HeaderLinesText(headers, order[1..]);
      Latin1Concat(HeaderLine(order[0], headers[order[0]]), HeaderLines(headers, order[1..]));
    }
  }

  lemma LengthLineText(content: Buff)
    ensures Latin1(LengthLine(content)) == LengthText(content)
  {
    hide Latin1, HeaderLine, Decimal;
    DecimalIsPlain(|content|);
    if content == [] {
      assert Latin1([]) == "" by { ReadsBack(""); }
    } else {
      HeaderLineText("content-length", Decimal(|content|));
    }
  }

  /** The fields of the first line between single spaces, each header on its line, the length
      of the content when there is any, an empty line and the content. */
  lemma WireText(m: Raw, order: seq<string>)
    requires m.firstLine != [] && Enumerates(order, m.headers) && Ascii(Join(m.firstLine, ' ')) && AsciiHeaders(m.headers)
    ensures Latin1(Written(m, order))
         == Join(m.firstLine, ' ') + "\r\n" + HeadersText(m.headers, order) + LengthText(m.content) + "\r\n"
            + Latin1(m.content)
  {
    hide Latin1, HeaderLines, HeadersText, LengthLine, LengthText, Utf8, Join;
    var line, lines, length := Utf8(Join(m.firstLine, ' ')), HeaderLines(m.headers, order), LengthLine(m.content);
    Marks();
    ReadsBack(Join(m.firstLine, ' '));
    HeaderLinesText(m.headers, order);
    LengthLineText(m.content);
    Latin1Concat(line, EOL);
    Latin1Concat(line + EOL, lines);
    Latin1Concat(line + EOL + lines, length);
    Latin1Concat(line + EOL + lines + length, EOL);
    Latin1Concat(line + EOL + lines + length + EOL, m.content);
  }

  lemma BareText(a: string, b: string, c: string, content: Buff)
    requires Ascii(a) && Ascii(b) && Ascii(c)
    ensures Latin1(Relay.Bare(Raw([a, b, c], map[], content)))
         == a + " " + b + " " + c + "\r\n" + LengthText(content) + "\r\n" + Latin1(content)
  {
    hide Latin1, LengthText, Written;
    JoinThree(a, b, c);
    WireText(Raw([a, b, c], map[], content), []);
  }

  /** What the proxy sends for a read. */
  lemma GetText(id: string)
    requires Ascii(id)
    ensures Latin1(Relay.Bare(Relay.GetRequest(id).ToRaw())) == "GET /?id=" + id + " HTTP/1.1\r\n\r\n"
  {
    hide Latin1, Relay.Bare, Ascii;
    assert Latin1([]) == "" by { ReadsBack(""); }
    AsciiQuery(id);
    BareText("GET", "/?id=" + id, "HTTP/1.1", []);
    Around("GET ", "/?id=", id, " HTTP/1.1", "\r\n");
    assert "GET" + " " == "GET ";
    assert "GET " + "/?id=" == "GET /?id=";
    assert " " + "HTTP/1.1" == " HTTP/1.1";
    assert " HTTP/1.1" + "\r\n" + "\r\n" == " HTTP/1.1\r\n\r\n";
  }

  lemma Around(a: string, b: string, c: string, d: string, e: string)
    ensures a + (b + c) + d + e + "" + e + "" == a + b + c + (d + e + e)
  {
  }

  lemma AsciiQuery(id: string)
    requires Ascii(id)
    ensures Ascii("GET") && Ascii("/?id=" + id) && Ascii("HTTP/1.1")
  {
  }

  /** What it sends for a message. */
  lemma PostText(msg: Buff)
    ensures Latin1(Relay.Bare(Relay.PostRequest(msg).ToRaw()))
         == "POST / HTTP/1.1\r\n" + LengthText(msg) + "\r\n" + Latin1(msg)
  {
    hide Latin1, Relay.Bare, LengthText;
    BareText("POST", "/", "HTTP/1.1", msg);
    assert "POST" + " " + "/" + " " + "HTTP/1.1" + "\r\n" == "POST / HTTP/1.1\r\n";
  }

  /** What the server answers. */
  lemma AnswerText(content: Buff)
    ensures Latin1(Relay.Bare(Relay.Answer(content).ToRaw()))
         == "HTTP/1.1 200 OK\r\n" + LengthText(content) + "\r\n" + Latin1(content)
  {
    hide Latin1, Relay.Bare, LengthText, Decimal;
    TwoHundred();
    BareText("HTTP/1.1", "200", "OK", content);
    assert "HTTP/1.1" + " " + "200" + " " + "OK" + "\r\n" == "HTTP/1.1 200 OK\r\n";
  }

  lemma TwoHundred()
    ensures Decimal(200) == "200"
  {
    assert Decimal(2) == "2";
    assert Decimal(20) == "20";
  }

  // --- Messages that were cut short ---

  lemma LineExtends(data: Buff, more: Buff, pos: nat)
    requires pos <= |data| && LineFrom(data, pos).Ok?
    ensures LineFrom(data + more, pos) == LineFrom(data, pos)
  {
    var k := FirstChar(data, pos, '\r');
    FirstCharIs(data + more, pos, '\r', k);
    assert (data + more)[pos..k] == data[pos..k];
  }

  lemma {:induction false} HeadersExtend(data: Buff, more: Buff, pos: nat, headers: map<string, string>, length: nat)
    requires pos <= |data| && HeadersFrom(data, pos, headers, length).Ok?
    ensures HeadersFrom(data + more, pos, headers, length) == HeadersFrom(data, pos, headers, length)
    decreases |data| - pos
  {
    hide LineFrom, Lower, Trim, SplitOnce, ParseUnsigned;
    LineExtends(data, more, pos);
    var line := LineFrom(data, pos).value;
    if line.value != "" {
      var (n, v) := SplitOnce(line.value, ':').value;
      if Lower(n) == CONTENT_LENGTH {
        HeadersExtend(data, more, line.pos, headers, ParseUnsigned(Trim(v), USIZE_LIMIT).value);
      } else {
        HeadersExtend(data, more, line.pos, headers[Lower(n) := Trim(v)], length);
      }
    }
  }

  /** What is read does not depend on what follows it. */
  lemma MessageExtends(data: Buff, more: Buff, pos: nat)
    requires pos <= |data| && MessageFrom(data, pos).Ok?
    ensures MessageFrom(data + more, pos) == MessageFrom(data, pos)
  {
    hide LineFrom, HeadersFrom;
    LineExtends(data, more, pos);
    var first := LineFrom(data, pos).value;
    HeadersExtend(data, more, first.pos, map[], 0);
    var head := HeadersFrom(data, first.pos, map[], 0).value;
    var end := head.pos + head.value.length;
    assert (data + more)[head.pos..end] == data[head.pos..end];
  }

  /** No proper beginning of a well-formed message is read as a message. */
  lemma CutIsRefused(m: Raw, order: seq<string>, n: nat)
    requires m.firstLine != [] && '\r' !in Join(m.firstLine, ' ')
    requires WellHeaders(m.headers) && Enumerates(order, m.headers) && |m.content| < USIZE_LIMIT
    requires n < |Written(m, order)|
    ensures MessageFrom(Written(m, order)[..n], 0).Err?
  {
    hide MessageFrom, Written, WellHeaders, Join, Split, ReadBack;
    var all := Written(m, order);
    if MessageFrom(all[..n], 0).Ok? {
      MessageExtends(all[..n], all[n..], 0);
      assert all[..n] + all[n..] == all;
      assert all + [] == all;
      AtStart(all, []);
      MessageReads(all, 0, m, order);
    }
  }

  // --- Malformed messages ---

  lemma SecondLine(first: string, second: string, rest: Buff)
    requires '\r' !in first && '\r' !in second
    ensures var data := Utf8(first) + EOL + (Utf8(second) + EOL + rest);
            var pos := |Utf8(first)| + 2;
            && LineFrom(data, 0) == Ok(Read(ReadBack(first), pos))
            && pos <= |data| && LineFrom(data, pos) == Ok(Read(ReadBack(second), pos + |Utf8(second)| + 2))
  {
    hide Utf8, LineFrom, ReadBack;
    var a, b := Utf8(first) + EOL, Utf8(second) + EOL;
    var data := a + (b + rest);
    AtStart(a, b + rest);
    LineReads(data, 0, first);
    AtStart(a + b, rest);
    assert a + b + rest == data;
    AtConcat(data, 0, a, b);
    LineReads(data, |a|, second);
  }

  /** A header line must have a colon. */
  lemma ColonNeeded(first: string, header: string, rest: Buff)
    requires '\r' !in first && '\r' !in header && header != "" && ':' !in header
    ensures MessageFrom(Utf8(first) + EOL + (Utf8(header) + EOL + rest), 0) == Err(InvalidData)
  {
    hide LineFrom, Utf8, Lower, Trim, ParseUnsigned, Split;
    SecondLine(first, header, rest);
    ReadBackContains(header, ':');
  }

  /** An announced length must be a number that the machine can count to. */
  lemma LengthNeedsNumber(first: string, value: string, rest: Buff)
    requires '\r' !in first && '\r' !in value && Ascii(value) && ParseUnsigned(Trim(value), 0x1_0000_0000_0000_0000) == None
    ensures MessageFrom(Utf8(first) + EOL + (Utf8("content-length:" + value) + EOL + rest), 0) == Err(InvalidData)
  {
    hide LineFrom, Utf8, Trim, ParseUnsigned, Split, SplitOnce, Ascii, ReadBack;
    var header := "content-length:" + value;
    AsciiLength(value);
    SecondLine(first, header, rest);
    ReadBackIsAscii(header);
    SplitOnceAt("content-length", ':', value);
    assert header == "content-length" + [':'] + value;
    assert Lower("content-length") == "content-length";
  }

  lemma AsciiLength(value: string)
    requires Ascii(value)
    ensures Ascii("content-length:" + value)
  {
  }

  /** A request needs a verb that is known, a url and a protocol; a response a code. */
  lemma FirstLineNeeded(m: Raw)
    ensures ParseRequest(m).Ok? <==> |m.firstLine| >= 3 && (m.firstLine[0] == "GET" || m.firstLine[0] == "POST")
    ensures ParseRequest(m).Ok? ==>
              ParseRequest(m).value
              == Request(if m.firstLine[0] == "GET" then GET else POST, m.firstLine[1], m.firstLine[2], m.headers, m.content)
    ensures ParseRequest(m).Err? ==> ParseRequest(m).error == InvalidData
    ensures ParseResponse(m).Ok? <==> |m.firstLine| >= 2 && ParseUnsigned(m.firstLine[1], 65536).Some?
  {
  }
}
