/**
 The exact condition under which a message survives being written and read back: not only
 its first line but every header, too.
 */
module HttpExact {
  import opened Bytes
  import opened Options
  import opened Results
  import opened HttpText
  import opened HttpMessage
  import opened HttpRoundTrip

  // --- What reading makes of a header ---

  /** Headers whose lines are found again: without the characters that end a name or a line. */
  predicate Structured(k: string, v: string) {
    ':' !in k && '\r' !in k && '\r' !in v
  }

  function NameBack(k: string): string {
    Lower(ReadBack(k))
  }

  function ValueBack(v: string): string {
    Trim(ReadBack(v))
  }

  function InsertedBack(into: map<string, string>, headers: map<string, string>, order: seq<string>): map<string, string>
    requires forall k :: k in order ==> k in headers
    decreases |order|
  {
    if order == [] then into
    else InsertedBack(into[NameBack(order[0]) := ValueBack(headers[order[0]])], headers, order[1..])
  }

  lemma ColonBack()
    ensures ReadBack(":") == ":" && Utf8(":") == COLON
  {
    ReadBackIsAscii(":");
    assert Utf8("") == [];
  }

  lemma LineText(k: string, v: string)
    ensures HeaderLine(k, v) == Utf8(k + ":" + v) + EOL
    ensures ReadBack(k + ":" + v) == ReadBack(k) + [':'] + ReadBack(v)
  {
    hide ReadBack, Utf8;
    ColonBack();
    Utf8Concat(k + ":", v);
    Utf8Concat(k, ":");
    ReadBackConcat(k + ":", v);
    ReadBackConcat(k, ":");
  }

  lemma AnyHeaderLineReads(data: Buff, pos: nat, k: string, v: string, headers: map<string, string>, length: nat)
    requires Structured(k, v) && NameBack(k) != CONTENT_LENGTH && At(data, pos, HeaderLine(k, v))
    ensures pos + |HeaderLine(k, v)| <= |data|
    ensures HeadersFrom(data, pos, headers, length)
         == HeadersFrom(data, pos + |HeaderLine(k, v)|, headers[NameBack(k) := ValueBack(v)], length)
  {
    hide LineFrom, At, HeaderLine, ReadBack, Utf8, IndexOf, SplitOnce, Trim, Lower;
    LineText(k, v);
    LineReads(data, pos, k + ":" + v);
    ReadBackContains(k, ':');
    SplitOnceAt(ReadBack(k), ':', ReadBack(v));
    AtBounds(data, pos, HeaderLine(k, v));
  }

  lemma {:induction false} AnyHeaderLinesRead(data: Buff, pos: nat, headers: map<string, string>, order: seq<string>,
                                              into: map<string, string>, length: nat)
    requires forall k :: k in order ==> k in headers && Structured(k, headers[k]) && NameBack(k) != CONTENT_LENGTH
    requires At(data, pos, HeaderLines(headers, order))
    ensures pos + |HeaderLines(headers, order)| <= |data|
    ensures HeadersFrom(data, pos, into, length)
         == HeadersFrom(data, pos + |HeaderLines(headers, order)|, InsertedBack(into, headers, order), length)
    decreases |order|
  {
    hide At, Structured, HeaderLine, HeadersFrom, NameBack, ValueBack;
    AtBounds(data, pos, HeaderLines(headers, order));
    if order != [] {
      var k := order[0];
      AtConcat(data, pos, HeaderLine(k, headers[k]), HeaderLines(headers, order[1..]));
      AnyHeaderLineReads(data, pos, k, headers[k], into, length);
      AnyHeaderLinesRead(data, pos + |HeaderLine(k, headers[k])|, headers, order[1..],
                         into[NameBack(k) := ValueBack(headers[k])], length);
    }
  }

  lemma AnyMessageReads(data: Buff, pos: nat, m: Raw, order: seq<string>)
    requires m.firstLine != [] && '\r' !in Join(m.firstLine, ' ')
    requires forall k :: k in m.headers ==> Structured(k, m.headers[k]) && NameBack(k) != CONTENT_LENGTH
    requires Enumerates(order, m.headers) && |m.content| < USIZE_LIMIT
    requires At(data, pos, Written(m, order))
    ensures pos <= |data|
    ensures MessageFrom(data, pos)
         == Ok(Read(Raw(Split(ReadBack(Join(m.firstLine, ' ')), ' '), InsertedBack(map[], m.headers, order), m.content),
                    pos + |Written(m, order)|))
  {
    hide At, Structured, HeaderLines, HeadersFrom, LineFrom, LengthLine, Utf8, ReadBack, Join, Split, InsertedBack, NameBack;
    var line := Utf8(Join(m.firstLine, ' '));
    var lines, length := HeaderLines(m.headers, order), LengthLine(m.content);
    AtBounds(data, pos, Written(m, order));
    AtConcat(data, pos, line + EOL + lines + length + EOL, m.content);
    WrittenGroups(line, lines, length);
    AtConcat(data, pos, line + EOL + lines, length + EOL);
    AtConcat(data, pos, line + EOL, lines);
    LineReads(data, pos, Join(m.firstLine, ' '));
    var p := pos + |line| + 2;
    AnyHeaderLinesRead(data, p, m.headers, order, map[], 0);
    LengthLineReads(data, p + |lines|, m.content, InsertedBack(map[], m.headers, order));
    AtIs(data, p + |lines| + |length| + 2, m.content);
  }

  // --- What every header that was read looks like ---

  predicate ReadName(k: string) {
    Lowered(k) && ':' !in k && '\r' !in k && k != CONTENT_LENGTH
  }

  predicate ReadValue(v: string) {
    Trimmed(v) && '\r' !in v
  }

  predicate ReadHeaders(headers: map<string, string>) {
    forall k :: k in headers ==> ReadName(k) && ReadValue(headers[k])
  }

  lemma LowerIs(s: string)
    ensures Lowered(Lower(s))
    ensures ':' !in s ==> ':' !in Lower(s)
    ensures '\r' !in s ==> '\r' !in Lower(s)
  {
    var l := Lower(s);
    forall k | 0 <= k < |l|
      ensures LowerChar(l[k]) == l[k]
      ensures (l[k] == ':' || l[k] == '\r') ==> l[k] == s[k]
    {
      assert l[k] == LowerChar(s[k]);
    }
    assert Lower(l) == l;
  }

  lemma {:induction false} TrimStartIs(s: string)
    ensures var t := TrimStart(s); (t == "" || !IsSpace(t[0])) && forall c :: c in t ==> c in s
    ensures |TrimStart(s)| <= |s|
  {
    if s != "" && IsSpace(s[0]) {
      TrimStartIs(s[1..]);
    }
  }

  lemma {:induction false} TrimEndIs(s: string)
    ensures var t := TrimEnd(s); t <= s && (t == "" || !IsSpace(t[|t| - 1]))
  {
    if s != "" && IsSpace(s[|s| - 1]) {
      TrimEndIs(s[..|s| - 1]);
    }
  }

  lemma TrimIs(s: string)
    ensures Trimmed(Trim(s)) && forall c :: c in Trim(s) ==> c in s
  {
    TrimStartIs(s);
    var t := TrimStart(s);
    TrimEndIs(t);
    var u := TrimEnd(t);
    assert u != "" ==> u[0] == t[0];
    forall c | c in u
      ensures c in s
    {
      var k :| 0 <= k < |u| && u[k] == c;
      assert t[k] == c;
    }
  }

  lemma SplitParts(s: string, c: char)
    requires SplitOnce(s, c).Some?
    ensures var (a, b) := SplitOnce(s, c).value;
            c !in a && (forall d :: d in a ==> d in s) && (forall d :: d in b ==> d in s)
  {
  }

  lemma {:induction false} HeadersFromAre(data: Buff, pos: nat, headers: map<string, string>, length: nat)
    requires pos <= |data| && ReadHeaders(headers) && HeadersFrom(data, pos, headers, length).Ok?
    ensures ReadHeaders(HeadersFrom(data, pos, headers, length).value.value.headers)
    decreases |data| - pos
  {
    hide ReadName, ReadValue, Lower, Trim, SplitOnce, LineFrom, ParseUnsigned;
    var line := LineFrom(data, pos).value;
    if line.value != "" {
      SplitParts(line.value, ':');
      var (n, v) := SplitOnce(line.value, ':').value;
      if Lower(n) == CONTENT_LENGTH {
        HeadersFromAre(data, line.pos, headers, ParseUnsigned(Trim(v), USIZE_LIMIT).value);
      } else {
        NameAndValue(n, v);
        HeadersFromAre(data, line.pos, headers[Lower(n) := Trim(v)], length);
      }
    }
  }

  lemma NameAndValue(n: string, v: string)
    requires ':' !in n && '\r' !in n && '\r' !in v && Lower(n) != CONTENT_LENGTH
    ensures ReadName(Lower(n)) && ReadValue(Trim(v))
  {
    hide Lower, Trim, Trimmed, Lowered;
    LowerIs(n);
    TrimIs(v);
  }

  // --- Characters beyond ASCII do not come back ---

  lemma {:induction false} NonAsciiBack(s: string)
    requires !Ascii(s)
    ensures !Ascii(ReadBack(s)) && |ReadBack(s)| > |s|
  {
    NonAsciiGrows(s);
    if (s[0] as int) < 128 {
      NonAsciiBack(s[1..]);
      var k :| 0 <= k < |ReadBack(s[1..])| && (ReadBack(s[1..])[k] as int) >= 128;
      assert ReadBack(s)[k + 1] == ReadBack(s[1..])[k];
    } else {
      assert Utf8(s)[0] == Utf8Char(s[0])[0];
      assert (ReadBack(s)[0] as int) >= 128;
    }
  }

  lemma NonAsciiLower(s: string)
    requires !Ascii(s)
    ensures !Ascii(Lower(s))
  {
    var k :| 0 <= k < |s| && (s[k] as int) >= 128;
    assert (Lower(s)[k] as int) >= 128;
  }

  /** A name beyond ASCII is read back as a longer one beyond ASCII. */
  lemma NameGrows(k: string)
    requires !Ascii(k)
    ensures !Ascii(NameBack(k)) && |NameBack(k)| > |k|
  {
    NonAsciiBack(k);
    NonAsciiLower(ReadBack(k));
  }

  lemma AsciiNameBack(k: string)
    requires Ascii(k) && Lowered(k)
    ensures NameBack(k) == k
  {
    ReadBackIsAscii(k);
  }

  lemma NotContentLength(k: string)
    requires ReadName(k)
    ensures NameBack(k) != CONTENT_LENGTH
  {
    hide NameBack, Ascii;
    ContentLengthName();
    if Ascii(k) {
      AsciiNameBack(k);
    } else {
      NameGrows(k);
    }
  }

  lemma {:induction false} Longest(names: set<string>) returns (longest: string)
    requires names != {}
    ensures longest in names && forall k :: k in names ==> |k| <= |longest|
    decreases names
  {
    var k :| k in names;
    var rest := names - {k};
    assert forall j :: j in names ==> j == k || j in rest;
    if rest == {} {
      longest := k;
    } else {
      longest := Longest(rest);
      if |longest| < |k| {
        longest := k;
      }
    }
  }

  lemma {:induction false} InsertedNames(into: map<string, string>, headers: map<string, string>, order: seq<string>)
    requires forall k :: k in order ==> k in headers
    ensures forall k :: k in into ==> k in InsertedBack(into, headers, order)
    ensures forall k :: k in order ==> NameBack(k) in InsertedBack(into, headers, order)
    decreases |order|
  {
    hide NameBack, ValueBack;
    if order != [] {
      InsertedNames(into[NameBack(order[0]) := ValueBack(headers[order[0]])], headers, order[1..]);
      assert order == [order[0]] + order[1..];
    }
  }

  /** If exactly the names written are read, they are all ASCII: the longest of those that
      are not would be read as a longer one. */
  lemma NamesAreAscii(headers: map<string, string>, order: seq<string>)
    requires Enumerates(order, headers) && InsertedBack(map[], headers, order) == headers
    ensures forall k :: k in headers ==> Ascii(k)
  {
    hide Ascii, NameBack, ValueBack;
    var beyond := set k | k in headers && !Ascii(k);
    if beyond != {} {
      var k := Longest(beyond);
      NameGrows(k);
      InsertedNames(map[], headers, order);
      assert false;
    }
    forall k | k in headers
      ensures Ascii(k)
    {
      assert k !in beyond;
    }
  }

  lemma {:induction false} InsertedValues(into: map<string, string>, headers: map<string, string>, order: seq<string>)
    requires forall k :: k in order ==> k in headers && NameBack(k) == k
    ensures forall k :: k in InsertedBack(into, headers, order) ==>
              (k in order || k in into)
              && InsertedBack(into, headers, order)[k] == if k in order then ValueBack(headers[k]) else into[k]
    decreases |order|
  {
    hide NameBack, ValueBack;
    if order != [] {
      InsertedValues(into[order[0] := ValueBack(headers[order[0]])], headers, order[1..]);
      assert order == [order[0]] + order[1..];
    }
  }

  // --- Values ---

  lemma TrimEndKeeps(a: string, c: char, b: string)
    requires !IsSpace(c)
    ensures a + [c] <= TrimEnd(a + [c] + b)
    decreases |b|
  {
    var s := a + [c] + b;
    if b == "" {
      assert s == a + [c] && s[|s| - 1] == c;
    } else if IsSpace(s[|s| - 1]) {
      assert s[..|s| - 1] == a + [c] + b[..|b| - 1];
      TrimEndKeeps(a, c, b[..|b| - 1]);
    }
  }

  /** The first byte of a character beyond ASCII is not read as white space. */
  lemma LeadByte(c: char)
    requires (c as int) >= 128
    ensures !IsSpace(Latin1Char(Utf8Char(c)[0])) && |Utf8Char(c)| >= 2
    ensures Latin1Char(Utf8Char(c)[0]) == c ==> Utf8Char(c)[1] == 0x83
  {
  }

  lemma ReadBackOne(c: char)
    ensures ReadBack([c]) == Latin1(Utf8Char(c))
  {
    assert [c][1..] == "";
    assert Utf8([c]) == Utf8Char(c) + [];
  }

  /** A trimmed value that starts with no white space is read back without leading space. */
  lemma NoLeadingSpace(v: string)
    requires v != "" && !IsSpace(v[0])
    ensures ReadBack(v) != "" && !IsSpace(ReadBack(v)[0])
  {
    assert Utf8(v)[0] == Utf8Char(v[0])[0];
    if (v[0] as int) >= 128 {
      LeadByte(v[0]);
    }
  }

  /** A value comes back only if it is ASCII. */
  lemma ValueComesBack(v: string)
    requires Trimmed(v) && ValueBack(v) == v
    ensures Ascii(v)
  {
    if v != "" {
      hide ReadBack, Utf8, Utf8Char, TrimEnd, Ascii, IsSpace;
      var u, c := v[..|v| - 1], v[|v| - 1];
      assert v == u + [c];
      NoLeadingSpace(v);
      assert TrimStart(ReadBack(v)) == ReadBack(v);
      ReadBackConcat(u, [c]);
      ReadBackOne(c);
      if (c as int) < 128 {
        LastIsAscii(u, c);
      } else {
        LastIsBeyond(u, c);
      }
    }
  }

  lemma LastIsAscii(u: string, c: char)
    requires (c as int) < 128 && !IsSpace(c) && TrimEnd(ReadBack(u) + Latin1(Utf8Char(c))) == u + [c]
    ensures Ascii(u + [c])
  {
    assert Latin1(Utf8Char(c)) == [c];
    TrimEndKeeps(ReadBack(u), c, "");
    assert ReadBack(u) + [c] + "" == ReadBack(u) + [c];
    assert (ReadBack(u) + [c])[|ReadBack(u)|] == c;
    if !Ascii(u) {
      NonAsciiBack(u);
    }
  }

  lemma LastIsBeyond(u: string, c: char)
    requires (c as int) >= 128
    ensures TrimEnd(ReadBack(u) + Latin1(Utf8Char(c))) != u + [c]
  {
    hide ReadBack, TrimEnd, Ascii;
    var r, back := ReadBack(u), Latin1(Utf8Char(c));
    var t := TrimEnd(r + back);
    LeadByte(c);
    assert r + back == r + [back[0]] + back[1..];
    TrimEndKeeps(r, back[0], back[1..]);
    assert t[|r|] == back[0];
    if Ascii(u) {
      ReadBackIsAscii(u);
      if back[0] == c {
        assert r + back == r + [back[0]] + [back[1]] + back[2..];
        TrimEndKeeps(r + [back[0]], back[1], back[2..]);
      }
    } else {
      NonAsciiBack(u);
    }
  }

  /** Headers that come back as they are, are well formed. */
  lemma HeadersComeBack(headers: map<string, string>, order: seq<string>)
    requires Enumerates(order, headers) && ReadHeaders(headers) && InsertedBack(map[], headers, order) == headers
    ensures WellHeaders(headers)
  {
    hide Ascii, NameBack, ValueBack, Lowered, Trimmed;
    NamesAreAscii(headers, order);
    forall k | k in headers
      ensures NameBack(k) == k
    {
      assert ReadName(k);
      AsciiNameBack(k);
    }
    InsertedValues(map[], headers, order);
    forall k | k in headers
      ensures WellHeader(k, headers[k])
    {
      assert ReadName(k) && ReadValue(headers[k]);
      ValueComesBack(headers[k]);
    }
  }

  // --- The exact conditions ---

  lemma MessageHeaders(data: Buff)
    requires MessageFrom(data, 0).Ok?
    ensures ReadHeaders(MessageFrom(data, 0).value.value.headers)
  {
    hide HeadersFrom, LineFrom, ReadName, ReadValue;
    HeadersFromAre(data, LineFrom(data, 0).value.pos, map[], 0);
  }

  /** If the headers of a written message are read as they were, they are well formed. */
  lemma HeadersAreWell(m: Raw, order: seq<string>, rest: Buff)
    requires m.firstLine != [] && '\r' !in Join(m.firstLine, ' ')
    requires Enumerates(order, m.headers) && |m.content| < USIZE_LIMIT
    requires MessageFrom(Written(m, order) + rest, 0).Ok?
    requires MessageFrom(Written(m, order) + rest, 0).value.value.headers == m.headers
    ensures WellHeaders(m.headers)
  {
    hide MessageFrom, Written, Join, InsertedBack, NameBack, WellHeaders;
    MessageHeaders(Written(m, order) + rest);
    forall k | k in m.headers
      ensures Structured(k, m.headers[k]) && NameBack(k) != CONTENT_LENGTH
    {
      assert ReadName(k) && ReadValue(m.headers[k]);
      NotContentLength(k);
    }
    AtStart(Written(m, order), rest);
    AnyMessageReads(Written(m, order) + rest, 0, m, order);
    HeadersComeBack(m.headers, order);
  }

  /** A request is read back unchanged, up to its exact end and whatever follows, if and
      only if its url and protocol are plain and every header has an ASCII name in lower
      case, other than content-length, and an ASCII value without space at its ends, neither
      with a separator. */
  lemma RequestRoundTrip(m: Request, order: seq<string>, rest: Buff)
    requires Enumerates(order, m.headers) && |m.content| < USIZE_LIMIT
    ensures RequestFrom(Written(m.ToRaw(), order) + rest, 0) == Ok(Read(m, |Written(m.ToRaw(), order)|))
            <==> Plain(m.url) && Plain(m.protocol) && WellHeaders(m.headers)
  {
    hide MessageFrom, WellHeaders, Written, Join, Plain;
    var data := Written(m.ToRaw(), order) + rest;
    if WellHeaders(m.headers) {
      RequestReads(m, order, rest);
    } else if RequestFrom(data, 0) == Ok(Read(m, |Written(m.ToRaw(), order)|)) {
      var line := MessageFrom(data, 0).value.value.firstLine;
      assert m.url == line[1] && m.protocol == line[2];
      NoReturn(m.verb.ToString(), m.url, m.protocol);
      HeadersAreWell(m.ToRaw(), order, rest);
    }
  }

  /** The same for responses, with the protocol and the phrase. */
  lemma ResponseRoundTrip(m: Response, order: seq<string>, rest: Buff)
    requires Enumerates(order, m.headers) && |m.content| < USIZE_LIMIT && m.code < U16_LIMIT
    ensures ResponseFrom(Written(m.ToRaw(), order) + rest, 0) == Ok(Read(m, |Written(m.ToRaw(), order)|))
            <==> Plain(m.protocol) && Plain(m.phrase) && WellHeaders(m.headers)
  {
    hide MessageFrom, WellHeaders, Written, Join, Plain, Decimal, ParseUnsigned;
    var data := Written(m.ToRaw(), order) + rest;
    if WellHeaders(m.headers) {
      ResponseReads(m, order, rest);
    } else if ResponseFrom(data, 0) == Ok(Read(m, |Written(m.ToRaw(), order)|)) {
      var line := MessageFrom(data, 0).value.value.firstLine;
      assert m.protocol == line[0] && m.phrase == if |line| < 3 then "" else line[2];
      DecimalIsPlain(m.code);
      NoReturn(m.protocol, Decimal(m.code), m.phrase);
      HeadersAreWell(m.ToRaw(), order, rest);
    }
  }
}
