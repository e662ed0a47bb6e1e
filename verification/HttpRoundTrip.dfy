/**
 Requests and responses, and the proof that reading undoes writing: for every
 well-formed message, every order of its headers and whatever follows it.
 */
module HttpRoundTrip {
  import opened Bytes
  import opened Options
  import opened Results
  import opened HttpText
  import opened HttpMessage

  datatype Method = GET | POST {
    function ToString(): string {
      match this
      case GET => "GET"
      case POST => "POST"
    }
  }

  function ParseMethod(s: string): Result<Method, IoError> {
    if s == "GET" then Ok(GET) else if s == "POST" then Ok(POST) else Err(InvalidData)
  }

  const PROTOCOL: string := "HTTP/1.1"
  const U16_LIMIT: nat := 0x1_0000

  datatype Request = Request(verb: Method, url: string, protocol: string, headers: map<string, string>, content: Buff) {
    function ToRaw(): (m: Raw)
      ensures m.firstLine != []
    {
      Raw([verb.ToString(), url, protocol], headers, content)
    }
  }

  datatype Response = Response(protocol: string, code: nat, phrase: string, headers: map<string, string>, content: Buff) {
    function ToRaw(): (m: Raw)
      ensures m.firstLine != []
    {
      Raw([protocol, Decimal(code), phrase], headers, content)
    }
  }

  /** Fields after the third are ignored. */
  function ParseRequest(m: Raw): Result<Request, IoError> {
    var line := m.firstLine;
    if line == [] then Err(InvalidData)
    else
      var verb :- ParseMethod(line[0]);
      if |line| < 3 then Err(InvalidData)
      else Ok(Request(verb, line[1], line[2], m.headers, m.content))
  }

  /** A missing phrase is the empty one. */
  function ParseResponse(m: Raw): Result<Response, IoError> {
    var line := m.firstLine;
    if |line| < 2 then Err(InvalidData)
    else
      match ParseUnsigned(line[1], U16_LIMIT)
      case None => Err(InvalidData)
      case Some(code) => Ok(Response(line[0], code, if |line| < 3 then "" else line[2], m.headers, m.content))
  }

  function RequestFrom(data: Buff, pos: nat): Result<Read<Request>, IoError>
    requires pos <= |data|
  {
    var m :- MessageFrom(data, pos);
    var request :- ParseRequest(m.value);
    Ok(Read(request, m.pos))
  }

  function ResponseFrom(data: Buff, pos: nat): Result<Read<Response>, IoError>
    requires pos <= |data|
  {
    var m :- MessageFrom(data, pos);
    var response :- ParseResponse(m.value);
    Ok(Read(response, m.pos))
  }

  // --- Well-formed headers ---

  predicate WellHeader(k: string, v: string) {
    && Ascii(k) && Lowered(k) && ':' !in k && '\r' !in k && k != CONTENT_LENGTH
    && Ascii(v) && Trimmed(v) && '\r' !in v
  }

  predicate WellHeaders(headers: map<string, string>) {
    forall k :: k in headers ==> WellHeader(k, headers[k])
  }

  // --- Lines ---

  lemma {:induction false} FirstCharIs(data: Buff, pos: nat, c: char, k: nat)
    requires pos <= k < |data| && Latin1Char(data[k]) == c
    requires forall j :: pos <= j < k ==> Latin1Char(data[j]) != c
    ensures FirstChar(data, pos, c) == k
    decreases k - pos
  {
    if pos < k {
      FirstCharIs(data, pos + 1, c, k);
    }
  }

  lemma LineReads(data: Buff, pos: nat, line: string)
    requires '\r' !in line && At(data, pos, Utf8(line) + EOL)
    ensures LineFrom(data, pos) == Ok(Read(ReadBack(line), pos + |Utf8(line)| + 2))
  {
    hide FirstChar;
    var bytes := Utf8(line);
    var k := pos + |bytes|;
    AtConcat(data, pos, bytes, EOL);
    assert data[k] == data[k..k + 2][0] == 13 && data[k + 1] == data[k..k + 2][1] == 10;
    assert data[pos..k] == bytes;
    ReadBackContains(line, '\r');
    forall j | pos <= j < k
      ensures Latin1Char(data[j]) != '\r'
    {
      assert data[j] == bytes[j - pos];
      assert Latin1(bytes)[j - pos] in ReadBack(line);
    }
    FirstCharIs(data, pos, '\r', k);
  }

  lemma HeaderText(k: string, v: string)
    requires Ascii(k) && Ascii(v)
    ensures HeaderLine(k, v) == Utf8(k + ":" + v) + EOL
    ensures ReadBack(k + ":" + v) == k + ":" + v
  {
    Utf8Concat(k + ":", v);
    Utf8Concat(k, ":");
    assert Utf8(":") == COLON by { assert Utf8("") == []; }
    ReadBackIsAscii(k + ":" + v);
  }

  lemma TrimmedStays(v: string)
    requires Trimmed(v)
    ensures Trim(v) == v
  {
  }

  lemma HeaderLineReads(data: Buff, pos: nat, k: string, v: string, headers: map<string, string>, length: nat)
    requires WellHeader(k, v) && At(data, pos, HeaderLine(k, v))
    ensures HeadersFrom(data, pos, headers, length)
         == HeadersFrom(data, pos + |HeaderLine(k, v)|, headers[k := v], length)
  {
    hide LineFrom, At, HeaderLine, ReadBack, Ascii, Utf8, IndexOf, SplitOnce, Trim;
    HeaderText(k, v);
    LineReads(data, pos, k + ":" + v);
    SplitOnceAt(k, ':', v);
    TrimmedStays(v);
    AtBounds(data, pos, HeaderLine(k, v));
  }

  lemma AtBounds(data: Buff, pos: nat, s: Buff)
    requires At(data, pos, s)
    ensures pos + |s| <= |data|
  {
  }

  lemma ContentLengthName()
    ensures Ascii(CONTENT_LENGTH) && Lower(CONTENT_LENGTH) == CONTENT_LENGTH
    ensures ':' !in CONTENT_LENGTH && '\r' !in CONTENT_LENGTH
  {
  }

  lemma LengthLineReads(data: Buff, pos: nat, content: Buff, headers: map<string, string>)
    requires |content| < USIZE_LIMIT && At(data, pos, LengthLine(content) + EOL)
    ensures HeadersFrom(data, pos, headers, 0)
         == Ok(Read(Head(headers, |content|), pos + |LengthLine(content)| + 2))
  {
    hide LineFrom, At, HeaderLine, ReadBack, Ascii, Utf8, IndexOf, SplitOnce, Trim, Decimal, ParseUnsigned, Lower;
    AtConcat(data, pos, LengthLine(content), EOL);
    EmptyLineReads(data, pos + |LengthLine(content)|, headers, |content|);
    AtBounds(data, pos, LengthLine(content));
    if content != [] {
      var v := Decimal(|content|);
      DecimalIsPlain(|content|);
      ContentLengthName();
      HeaderText(CONTENT_LENGTH, v);
      LineReads(data, pos, CONTENT_LENGTH + ":" + v);
      SplitOnceAt(CONTENT_LENGTH, ':', v);
      TrimmedStays(v);
      DecimalParses(|content|, USIZE_LIMIT);
    }
  }

  lemma EmptyLineReads(data: Buff, pos: nat, headers: map<string, string>, length: nat)
    requires At(data, pos, EOL)
    ensures HeadersFrom(data, pos, headers, length) == Ok(Read(Head(headers, length), pos + 2))
  {
    hide LineFrom;
    assert Utf8("") + EOL == EOL;
    LineReads(data, pos, "");
  }

  function Inserted(into: map<string, string>, headers: map<string, string>, order: seq<string>): map<string, string>
    requires forall k :: k in order ==> k in headers
    decreases |order|
  {
    if order == [] then into else Inserted(into[order[0] := headers[order[0]]], headers, order[1..])
  }

  lemma {:induction false} InsertedAll(into: map<string, string>, headers: map<string, string>, order: seq<string>)
    requires forall k :: k in order ==> k in headers
    ensures forall k :: k in Inserted(into, headers, order) <==> k in into || k in order
    ensures forall k :: k in Inserted(into, headers, order) ==>
              Inserted(into, headers, order)[k] == if k in order then headers[k] else into[k]
    decreases |order|
  {
    if order != [] {
      InsertedAll(into[order[0] := headers[order[0]]], headers, order[1..]);
      assert order == [order[0]] + order[1..];
    }
  }

  lemma {:induction false} HeaderLinesRead(data: Buff, pos: nat, headers: map<string, string>, order: seq<string>,
                                           into: map<string, string>, length: nat)
    requires WellHeaders(headers) && forall k :: k in order ==> k in headers
    requires At(data, pos, HeaderLines(headers, order))
    ensures HeadersFrom(data, pos, into, length)
         == HeadersFrom(data, pos + |HeaderLines(headers, order)|, Inserted(into, headers, order), length)
    decreases |order|
  {
    hide At, WellHeader, HeaderLine, HeadersFrom;
    AtBounds(data, pos, HeaderLines(headers, order));
    if order != [] {
      var k := order[0];
      AtConcat(data, pos, HeaderLine(k, headers[k]), HeaderLines(headers, order[1..]));
      HeaderLineReads(data, pos, k, headers[k], into, length);
      HeaderLinesRead(data, pos + |HeaderLine(k, headers[k])|, headers, order[1..], into[k := headers[k]], length);
    }
  }

  /** Whatever the first line says, and in whatever order the headers come: reading finds
      the fields of the line as they are read back, the headers and the content, and stops
      exactly at the end of the message. */
  lemma MessageReads(data: Buff, pos: nat, m: Raw, order: seq<string>)
    requires m.firstLine != [] && '\r' !in Join(m.firstLine, ' ')
    requires WellHeaders(m.headers) && Enumerates(order, m.headers) && |m.content| < USIZE_LIMIT
    requires At(data, pos, Written(m, order))
    ensures pos <= |data|
    ensures MessageFrom(data, pos)
         == Ok(Read(m.(firstLine := Split(ReadBack(Join(m.firstLine, ' ')), ' ')), pos + |Written(m, order)|))
  {
    hide At, WellHeaders, HeaderLines, HeadersFrom, LineFrom, LengthLine, Utf8, ReadBack, Join, Split, Inserted;
    var line := Utf8(Join(m.firstLine, ' '));
    var lines, length := HeaderLines(m.headers, order), LengthLine(m.content);
    AtBounds(data, pos, Written(m, order));
    AtConcat(data, pos, line + EOL + lines + length + EOL, m.content);
    WrittenGroups(line, lines, length);
    AtConcat(data, pos, line + EOL + lines, length + EOL);
    AtConcat(data, pos, line + EOL, lines);
    LineReads(data, pos, Join(m.firstLine, ' '));
    var p := pos + |line| + 2;
    HeaderLinesRead(data, p, m.headers, order, map[], 0);
    InsertedAll(map[], m.headers, order);
    assert Inserted(map[], m.headers, order) == m.headers;
    LengthLineReads(data, p + |lines|, m.content, m.headers);
    AtIs(data, p + |lines| + |length| + 2, m.content);
  }

  lemma WrittenGroups(line: Buff, lines: Buff, length: Buff)
    ensures line + EOL + lines + length + EOL == line + EOL + lines + (length + EOL)
  {
  }

  lemma AtIs(data: Buff, pos: nat, s: Buff)
    requires At(data, pos, s)
    ensures pos + |s| <= |data| && data[pos..pos + |s|] == s
  {
  }

  // --- Requests and responses ---

  /** Text that survives as a field of a first line. */
  predicate Plain(s: string) {
    Ascii(s) && ' ' !in s && '\r' !in s
  }

  lemma JoinThree(a: string, b: string, c: string)
    ensures Join([a, b, c], ' ') == a + " " + b + " " + c
  {
    assert [a, b, c][1..] == [b, c] && [b, c][1..] == [c];
    assert Join([b, c], ' ') == b + [' '] + Join([c], ' ');
    assert a + " " + b + " " + c == a + [' '] + (b + [' '] + c);
  }

  lemma ThreeFields(a: string, b: string, c: string)
    ensures Join([a, b, c], ' ') == a + " " + b + " " + c
    ensures ReadBack(Join([a, b, c], ' ')) == Join([ReadBack(a), ReadBack(b), ReadBack(c)], ' ')
  {
    hide ReadBack, Join;
    JoinThree(a, b, c);
    JoinThree(ReadBack(a), ReadBack(b), ReadBack(c));
    ReadBackIsAscii(" ");
    ReadBackConcat(a + " " + b + " ", c);
    ReadBackConcat(a + " " + b, " ");
    ReadBackConcat(a + " ", b);
    ReadBackConcat(a, " ");
  }

  /** Three fields without spaces are found again, each as it is read back. */
  lemma ThreeFieldsSplit(a: string, b: string, c: string)
    requires ' ' !in a && ' ' !in b && ' ' !in c
    ensures Split(ReadBack(Join([a, b, c], ' ')), ' ') == [ReadBack(a), ReadBack(b), ReadBack(c)]
  {
    hide ReadBack, Join, Split;
    ThreeFields(a, b, c);
    ReadBackContains(a, ' ');
    ReadBackContains(b, ' ');
    ReadBackContains(c, ' ');
    SplitOfJoin([ReadBack(a), ReadBack(b), ReadBack(c)], ' ');
  }

  lemma NoReturn(a: string, b: string, c: string)
    requires '\r' !in a && '\r' !in b && '\r' !in c
    ensures '\r' !in Join([a, b, c], ' ')
  {
    hide Join, ReadBack;
    ThreeFields(a, b, c);
  }

  /** A request is read back unchanged, up to its exact end and whatever follows, if and
      only if its url and protocol are plain. */
  lemma RequestReads(m: Request, order: seq<string>, rest: Buff)
    requires WellHeaders(m.headers) && Enumerates(order, m.headers) && |m.content| < USIZE_LIMIT
    ensures RequestFrom(Written(m.ToRaw(), order) + rest, 0) == Ok(Read(m, |Written(m.ToRaw(), order)|))
            <==> Plain(m.url) && Plain(m.protocol)
  {
    hide MessageFrom, WellHeaders, Written, ReadBack, Join, Split;
    var data := Written(m.ToRaw(), order) + rest;
    var verb := m.verb.ToString();
    if ' ' !in m.url && ' ' !in m.protocol && '\r' !in m.url && '\r' !in m.protocol {
      AtStart(Written(m.ToRaw(), order), rest);
      NoReturn(verb, m.url, m.protocol);
      MessageReads(data, 0, m.ToRaw(), order);
      ThreeFieldsSplit(verb, m.url, m.protocol);
      ReadBackIsAscii(verb);
      ReadBackIsAscii(m.url);
      ReadBackIsAscii(m.protocol);
    } else if RequestFrom(data, 0).Ok? {
      var line := MessageFrom(data, 0).value.value.firstLine;
      assert RequestFrom(data, 0).value.value.url == line[1];
      assert RequestFrom(data, 0).value.value.protocol == line[2];
    }
  }

  /** A response is read back unchanged if and only if its protocol and phrase are plain
      and its code fits sixteen bits: a phrase of several words loses all but the first. */
  lemma ResponseReads(m: Response, order: seq<string>, rest: Buff)
    requires WellHeaders(m.headers) && Enumerates(order, m.headers) && |m.content| < USIZE_LIMIT
    requires m.code < U16_LIMIT
    ensures ResponseFrom(Written(m.ToRaw(), order) + rest, 0) == Ok(Read(m, |Written(m.ToRaw(), order)|))
            <==> Plain(m.protocol) && Plain(m.phrase)
  {
    hide MessageFrom, WellHeaders, Written, ReadBack, Join, Split, Decimal, ParseUnsigned;
    var data := Written(m.ToRaw(), order) + rest;
    var code := Decimal(m.code);
    DecimalIsPlain(m.code);
    if ' ' !in m.protocol && ' ' !in m.phrase && '\r' !in m.protocol && '\r' !in m.phrase {
      AtStart(Written(m.ToRaw(), order), rest);
      NoReturn(m.protocol, code, m.phrase);
      MessageReads(data, 0, m.ToRaw(), order);
      ThreeFieldsSplit(m.protocol, code, m.phrase);
      ReadBackIsAscii(code);
      ReadBackIsAscii(m.protocol);
      ReadBackIsAscii(m.phrase);
      DecimalParses(m.code, U16_LIMIT);
    } else if ResponseFrom(data, 0).Ok? {
      var line := MessageFrom(data, 0).value.value.firstLine;
      assert ResponseFrom(data, 0).value.value.protocol == line[0];
      assert ResponseFrom(data, 0).value.value.phrase == if |line| < 3 then "" else line[2];
    }
  }

  /** Only the first word of a phrase comes back. */
  lemma PhraseLosesWords(m: Response, order: seq<string>, word: string, words: string)
    requires WellHeaders(m.headers) && Enumerates(order, m.headers) && |m.content| < USIZE_LIMIT
    requires m.code < U16_LIMIT && Plain(m.protocol) && Plain(word) && '\r' !in words
    requires m.phrase == word + " " + words
    ensures ResponseFrom(Written(m.ToRaw(), order), 0)
         == Ok(Read(m.(phrase := word), |Written(m.ToRaw(), order)|))
  {
    hide MessageFrom, WellHeaders, Written, ReadBack, Join, Split, Decimal, ParseUnsigned;
    var data := Written(m.ToRaw(), order);
    var code := Decimal(m.code);
    DecimalIsPlain(m.code);
    AtStart(data, []);
    assert data + [] == data;
    NoReturn(m.protocol, code, m.phrase);
    MessageReads(data, 0, m.ToRaw(), order);
    FourFieldsSplit(m.protocol, code, word, words);
    DecimalParses(m.code, U16_LIMIT);
  }

  lemma FourFieldsSplit(a: string, b: string, c: string, more: string)
    requires Plain(a) && Plain(b) && Plain(c)
    ensures var fields := Split(ReadBack(Join([a, b, c + " " + more], ' ')), ' ');
            |fields| >= 3 && fields[..3] == [a, b, c]
  {
    hide ReadBack, Join, Split;
    ThreeFields(a, b, c + " " + more);
    ReadBackIsAscii(a + " " + b + " " + c + " ");
    ReadBackConcat(a + " " + b + " " + c + " ", more);
    var rest := ReadBack(more);
    var s := ReadBack(Join([a, b, c + " " + more], ' '));
    assert a + " " + b + " " + (c + " " + more) == a + " " + b + " " + c + " " + more;
    assert s == a + [' '] + (b + [' '] + (c + [' '] + rest));
    SplitHead(a, ' ', b + [' '] + (c + [' '] + rest));
    SplitHead(b, ' ', c + [' '] + rest);
    SplitHead(c, ' ', rest);
  }
}
