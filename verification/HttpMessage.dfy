/**
 Reading and writing HTTP messages: what one call of `Message::read` finds at a
 position of its input, what `Message::write` produces, and the streams that do both.
 */
module HttpMessage {
  import opened Bytes
  import opened Options
  import opened Results
  import opened HttpText

  datatype IoError = UnexpectedEof | InvalidData

  const CONTENT_LENGTH: string := "content-length"
  const USIZE_LIMIT: nat := 0x1_0000_0000_0000_0000

  /** A message before it is taken for a request or a response. */
  datatype Raw = Raw(firstLine: seq<string>, headers: map<string, string>, content: Buff)

  datatype Read<+T> = Read(value: T, pos: nat)

  // --- What is read ---

  /** The first position from `pos` on whose byte is the character `c`, or the end. */
  function FirstChar(data: Buff, pos: nat, c: char): (k: nat)
    requires pos <= |data|
    ensures pos <= k <= |data|
    ensures k < |data| ==> Latin1Char(data[k]) == c
    ensures forall j :: pos <= j < k ==> Latin1Char(data[j]) != c
    decreases |data| - pos
  {
    if pos == |data| || Latin1Char(data[pos]) == c then pos else FirstChar(data, pos + 1, c)
  }

  function LineFrom(data: Buff, pos: nat): (r: Result<Read<string>, IoError>)
    requires pos <= |data|
    ensures r.Ok? ==> pos + 2 <= r.value.pos <= |data| && '\r' !in r.value.value
  {
    var k := FirstChar(data, pos, '\r');
    if |data| <= k + 1 then Err(UnexpectedEof)
    else if data[k + 1] != 10 then Err(InvalidData)
    else Ok(Read(Latin1(data[pos..k]), k + 2))
  }

  datatype Head = Head(headers: map<string, string>, length: nat)

  function HeadersFrom(data: Buff, pos: nat, headers: map<string, string>, length: nat)
    : (r: Result<Read<Head>, IoError>)
    requires pos <= |data|
    ensures r.Ok? ==> pos < r.value.pos <= |data|
    decreases |data| - pos
  {
    var line :- LineFrom(data, pos);
    if line.value == "" then Ok(Read(Head(headers, length), line.pos))
    else
      match SplitOnce(line.value, ':')
      case None => Err(InvalidData)
      case Some((n, v)) =>
        var name, value := Lower(n), Trim(v);
        if name == CONTENT_LENGTH then
          match ParseUnsigned(value, USIZE_LIMIT)
          case None => Err(InvalidData)
          case Some(announced) => HeadersFrom(data, line.pos, headers, announced)
        else
          HeadersFrom(data, line.pos, headers[name := value], length)
  }

  function MessageFrom(data: Buff, pos: nat): (r: Result<Read<Raw>, IoError>)
    requires pos <= |data|
    ensures r.Ok? ==> pos < r.value.pos <= |data|
    ensures r.Ok? ==> forall k :: 0 <= k < |r.value.value.firstLine| ==>
                        ' ' !in r.value.value.firstLine[k] && '\r' !in r.value.value.firstLine[k]
  {
    var first :- LineFrom(data, pos);
    var head :- HeadersFrom(data, first.pos, map[], 0);
    var end := head.pos + head.value.length;
    if |data| < end then Err(UnexpectedEof)
    else Ok(Read(Raw(Split(first.value, ' '), head.value.headers, data[head.pos..end]), end))
  }

  /** An input stream: `pos` bytes have been consumed. */
  class Stream {
    const data: Buff
    var pos: nat

    ghost predicate Valid()
      reads this
    {
      pos <= |data|
    }

    constructor (data: Buff)
      ensures Valid() && this.data == data && pos == 0
    {
      this.data := data;
      pos := 0;
    }

    method ReadByte() returns (r: Result<Byte, IoError>)
      requires Valid()
      modifies this
      ensures Valid()
      ensures old(pos) < |data| ==> r == Ok(data[old(pos)]) && pos == old(pos) + 1
      ensures old(pos) == |data| ==> r == Err(UnexpectedEof) && pos == old(pos)
    {
      if pos == |data| {
        return Err(UnexpectedEof);
      }
      r := Ok(data[pos]);
      pos := pos + 1;
    }

    method ReadStringUntil(c: char) returns (r: Result<string, IoError>)
      requires Valid()
      modifies this
      ensures Valid() && old(pos) <= pos
      ensures var k := FirstChar(data, old(pos), c);
              if k < |data| then r == Ok(Latin1(data[old(pos)..k])) && pos == k + 1
              else r == Err(UnexpectedEof)
    {
      var buf := "";
      while true
        invariant Valid() && old(pos) <= pos
        invariant buf == Latin1(data[old(pos)..pos])
        invariant FirstChar(data, pos, c) == FirstChar(data, old(pos), c)
        decreases |data| - pos
      {
        var byte := ReadByte();
        if byte.Err? {
          return Err(byte.error);
        }
        var next := Latin1Char(byte.value);
        if next == c {
          break;
        }
        buf := buf + [next];
      }
      r := Ok(buf);
    }

    method ReadExactVec(len: nat) returns (r: Result<Buff, IoError>)
      requires Valid()
      modifies this
      ensures Valid()
      ensures if old(pos) + len <= |data| then r == Ok(data[old(pos)..old(pos) + len]) && pos == old(pos) + len
              else r == Err(UnexpectedEof)
    {
      if |data| < pos + len {
        return Err(UnexpectedEof);
      }
      r := Ok(data[pos..pos + len]);
      pos := pos + len;
    }

    method ReadLine() returns (r: Result<string, IoError>)
      requires Valid()
      modifies this
      ensures Valid()
      ensures match LineFrom(data, old(pos))
              case Ok(line) => r == Ok(line.value) && pos == line.pos
              case Err(e) => r == Err(e)
    {
      var line := ReadStringUntil('\r');
      if line.Err? {
        return line;
      }
      var byte := ReadByte();
      if byte.Err? {
        return Err(byte.error);
      }
      if byte.value != 10 {
        return Err(InvalidData);
      }
      return line;
    }

    /** `Message::read` consumes exactly one message. */
    method ReadMessage() returns (r: Result<Raw, IoError>)
      requires Valid()
      modifies this
      ensures Valid()
      ensures match MessageFrom(data, old(pos))
              case Ok(message) => r == Ok(message.value) && pos == message.pos
              case Err(e) => r == Err(e)
    {
      hide LineFrom;
      var first := ReadLine();
      if first.Err? {
        return Err(first.error);
      }
      var contentLength := 0;
      var headers := map[];
      ghost var start := pos;
      while true
        invariant Valid()
        invariant HeadersFrom(data, pos, headers, contentLength) == HeadersFrom(data, start, map[], 0)
        decreases |data| - pos
      {
        var line := ReadLine();
        if line.Err? {
          return Err(line.error);
        }
        if line.value == "" {
          break;
        }
        var split := SplitOnce(line.value, ':');
        if split == None {
          return Err(InvalidData);
        }
        var (n, v) := split.value;
        var name, value := Lower(n), Trim(v);
        if name == CONTENT_LENGTH {
          var parsed := ParseUnsigned(value, USIZE_LIMIT);
          if parsed == None {
            return Err(InvalidData);
          }
          contentLength := parsed.value;
        } else {
          headers := headers[name := value];
        }
      }
      var content := ReadExactVec(contentLength);
      if content.Err? {
        return Err(content.error);
      }
      return Ok(Raw(Split(first.value, ' '), headers, content.value));
    }
  }

  // --- What is written ---

  const EOL: Buff := [13, 10]
  const COLON: Buff := [58]

  function HeaderLine(k: string, v: string): Buff {
    Utf8(k) + COLON + Utf8(v) + EOL
  }

  function HeaderLines(headers: map<string, string>, order: seq<string>): Buff
    requires forall k :: k in order ==> k in headers
  {
    if order == [] then [] else HeaderLine(order[0], headers[order[0]]) + HeaderLines(headers, order[1..])
  }

  function LengthLine(content: Buff): Buff {
    if content == [] then [] else HeaderLine(CONTENT_LENGTH, Decimal(|content|))
  }

  /** `order` lists the keys of `headers`, each once. */
  ghost predicate Enumerates(order: seq<string>, headers: map<string, string>) {
    && (forall k :: k in order <==> k in headers)
    && (forall i, j :: 0 <= i < j < |order| ==> order[i] != order[j])
  }

  /** The bytes of a message whose headers are written in the given order. */
  function Written(m: Raw, order: seq<string>): Buff
    requires m.firstLine != [] && Enumerates(order, m.headers)
  {
    Utf8(Join(m.firstLine, ' ')) + EOL + HeaderLines(m.headers, order) + LengthLine(m.content) + EOL + m.content
  }

  lemma {:induction false} HeaderLinesSnoc(headers: map<string, string>, order: seq<string>, k: string)
    requires k in headers && forall j :: j in order ==> j in headers
    ensures HeaderLines(headers, order + [k]) == HeaderLines(headers, order) + HeaderLine(k, headers[k])
  {
    hide HeaderLine;
    if order == [] {
      assert HeaderLines(headers, [k]) == HeaderLine(k, headers[k]) + HeaderLines(headers, []);
    } else {
      assert (order + [k])[1..] == order[1..] + [k];
      HeaderLinesSnoc(headers, order[1..], k);
    }
  }

  class OutStream {
    var written: Buff

    constructor ()
      ensures written == []
    {
      written := [];
    }

    method WriteAll(bytes: Buff)
      modifies this
      ensures written == old(written) + bytes
    {
      written := written + bytes;
    }

    method WriteHeader(k: string, v: string)
      modifies this
      ensures written == old(written) + HeaderLine(k, v)
    {
      WriteAll(Utf8(k));
      WriteAll(COLON);
      WriteAll(Utf8(v));
      WriteAll(EOL);
      Appended(old(written), Utf8(k), COLON, Utf8(v), EOL);
    }

    /** `Message::write` takes the headers in whatever order the hash map gives them. */
    method WriteMessage(m: Raw) returns (ghost order: seq<string>)
      requires m.firstLine != []
      modifies this
      ensures Enumerates(order, m.headers)
      ensures written == old(written) + Written(m, order)
    {
      hide HeaderLine, HeaderLines, Utf8;
      WriteAll(Utf8(Join(m.firstLine, ' ')));
      WriteAll(EOL);
      ghost var start := written;
      order := [];
      var left := m.headers.Keys;
      HeaderLinesNone(m.headers);
      while left != {}
        invariant left <= m.headers.Keys
        invariant forall k :: k in order <==> k in m.headers && k !in left
        invariant forall i, j :: 0 <= i < j < |order| ==> order[i] != order[j]
        invariant written == start + HeaderLines(m.headers, order)
        decreases |left|
      {
        var k :| k in left;
        WriteHeader(k, m.headers[k]);
        HeaderLinesSnoc(m.headers, order, k);
        order := order + [k];
        left := left - {k};
      }
      if |m.content| > 0 {
        WriteHeader(CONTENT_LENGTH, Decimal(|m.content|));
      }
      WriteAll(EOL);
      WriteAll(m.content);
      WrittenAs(old(written), m, order);
    }
  }

  lemma HeaderLinesNone(headers: map<string, string>)
    ensures HeaderLines(headers, []) == []
  {
  }

  lemma Appended(start: Buff, a: Buff, b: Buff, c: Buff, d: Buff)
    ensures start + a + b + c + d == start + (a + b + c + d)
  {
  }

  lemma WrittenAs(start: Buff, m: Raw, order: seq<string>)
    requires m.firstLine != [] && Enumerates(order, m.headers)
    ensures start + Utf8(Join(m.firstLine, ' ')) + EOL + HeaderLines(m.headers, order) + LengthLine(m.content) + EOL
            + m.content == start + Written(m, order)
  {
    hide HeaderLines, Utf8, LengthLine;
    var a, b, c, d := Utf8(Join(m.firstLine, ' ')), HeaderLines(m.headers, order), LengthLine(m.content), m.content;
    assert start + a + EOL + b + c + EOL + d == start + (a + EOL + b + c + EOL + d);
  }
}
