/**
 Text as the HTTP code handles it: written as UTF-8, read back one byte at a time as
 Latin-1, and the splitting, trimming and number routines applied to it.
 */
module HttpText {
  import opened Bytes
  import opened Options

  // --- Characters and bytes ---

  function Latin1Char(b: Byte): char {
    b as char
  }

  /** Each byte becomes the character with its number. */
  function Latin1(b: Buff): (s: string)
    ensures |s| == |b|
    ensures forall k :: 0 <= k < |b| ==> s[k] == Latin1Char(b[k])
  {
    seq(|b|, k requires 0 <= k < |b| => Latin1Char(b[k]))
  }

  function Utf8Char(c: char): (b: Buff)
    ensures 1 <= |b| <= 4
    ensures (c as int) < 128 ==> b == [c as int]
    ensures (c as int) >= 128 ==> |b| >= 2 && forall k :: 0 <= k < |b| ==> b[k] >= 128
  {
    var n := c as int;
    if n < 0x80 then [n]
    else if n < 0x800 then [0xC0 + n / 0x40, 0x80 + n % 0x40]
    else if n < 0x1_0000 then [0xE0 + n / 0x1000, 0x80 + n / 0x40 % 0x40, 0x80 + n % 0x40]
    else [0xF0 + n / 0x4_0000 % 8, 0x80 + n / 0x1000 % 0x40, 0x80 + n / 0x40 % 0x40, 0x80 + n % 0x40]
  }

  function Utf8(s: string): (b: Buff)
    ensures |b| >= |s|
  {
    if s == "" then [] else Utf8Char(s[0]) + Utf8(s[1..])
  }

  predicate Ascii(s: string) {
    forall k :: 0 <= k < |s| ==> (s[k] as int) < 128
  }

  /** What a text is read back as. */
  function ReadBack(s: string): string {
    Latin1(Utf8(s))
  }

  lemma {:induction false} Utf8Concat(a: string, b: string)
    ensures Utf8(a + b) == Utf8(a) + Utf8(b)
  {
    if a == "" {
      assert a + b == b;
    } else {
      assert (a + b)[1..] == a[1..] + b;
      Utf8Concat(a[1..], b);
    }
  }

  lemma {:induction false} AsciiBytes(s: string)
    requires Ascii(s)
    ensures |Utf8(s)| == |s| && forall k :: 0 <= k < |s| ==> Utf8(s)[k] == s[k] as int
  {
    if s != "" {
      AsciiBytes(s[1..]);
    }
  }

  lemma {:induction false} NonAsciiGrows(s: string)
    requires !Ascii(s)
    ensures |Utf8(s)| > |s|
  {
    if (s[0] as int) < 128 {
      NonAsciiGrows(s[1..]);
    }
  }

  /** Text survives being written and read back exactly when it is ASCII. */
  lemma ReadBackIsAscii(s: string)
    ensures ReadBack(s) == s <==> Ascii(s)
  {
    if Ascii(s) {
      AsciiBytes(s);
    } else {
      NonAsciiGrows(s);
    }
  }

  /** Whether an ASCII character occurs is the same before and after. */
  lemma {:induction false} ReadBackContains(s: string, c: char)
    requires (c as int) < 128
    ensures c in ReadBack(s) <==> c in s
    ensures (c as int) in Utf8(s) <==> c in s
  {
    if s != "" {
      ReadBackContains(s[1..], c);
      assert s == [s[0]] + s[1..];
      Latin1Contains(Utf8(s), c);
    }
  }

  lemma Latin1Contains(b: Buff, c: char)
    requires (c as int) < 128
    ensures c in Latin1(b) <==> (c as int) in b
  {
    if c in Latin1(b) {
      var k :| 0 <= k < |b| && Latin1(b)[k] == c;
      assert b[k] == Latin1Char(b[k]) as int;
    }
    if (c as int) in b {
      var k :| 0 <= k < |b| && b[k] == c as int;
      assert Latin1(b)[k] == c;
    }
  }

  lemma Latin1Concat(a: Buff, b: Buff)
    ensures Latin1(a + b) == Latin1(a) + Latin1(b)
  {
  }

  lemma ReadBackConcat(a: string, b: string)
    ensures ReadBack(a + b) == ReadBack(a) + ReadBack(b)
  {
    Utf8Concat(a, b);
    Latin1Concat(Utf8(a), Utf8(b));
  }

  // --- Splitting ---

  /** The position of the first `c`, or the length. */
  function IndexOf(s: string, c: char): (k: nat)
    ensures k <= |s| && c !in s[..k] && (k < |s| ==> s[k] == c)
  {
    if s == "" || s[0] == c then 0
    else
      var k := 1 + IndexOf(s[1..], c);
      assert s[..k] == [s[0]] + s[1..][..k - 1];
      k
  }

  lemma {:induction false} IndexOfFirst(s: string, c: char, k: nat)
    requires k <= |s| && c !in s[..k] && (k < |s| ==> s[k] == c)
    ensures IndexOf(s, c) == k
  {
    if k > 0 {
      assert s[0] == s[..k][0];
      assert s[1..][..k - 1] == s[..k][1..];
      IndexOfFirst(s[1..], c, k - 1);
    }
  }

  function SplitOnce(s: string, c: char): Option<(string, string)> {
    var k := IndexOf(s, c);
    if k < |s| then Some((s[..k], s[k + 1..])) else None
  }

  function Split(s: string, c: char): (parts: seq<string>)
    ensures |parts| > 0
    ensures forall k :: 0 <= k < |parts| ==> c !in parts[k] && (forall d :: d in parts[k] ==> d in s)
    decreases |s|
  {
    var k := IndexOf(s, c);
    if k < |s| then [s[..k]] + Split(s[k + 1..], c) else
      assert s[..k] == s;
      [s]
  }

  function Join(parts: seq<string>, c: char): string
    requires parts != []
  {
    if |parts| == 1 then parts[0] else parts[0] + [c] + Join(parts[1..], c)
  }

  lemma SplitOnceAt(a: string, c: char, b: string)
    requires c !in a
    ensures SplitOnce(a + [c] + b, c) == Some((a, b))
  {
    var s := a + [c] + b;
    assert s[..|a|] == a && s[|a| + 1..] == b;
    IndexOfFirst(s, c, |a|);
  }

  lemma SplitHead(a: string, c: char, b: string)
    requires c !in a
    ensures Split(a + [c] + b, c) == [a] + Split(b, c)
  {
    var s := a + [c] + b;
    assert s[..|a|] == a && s[|a| + 1..] == b;
    IndexOfFirst(s, c, |a|);
  }

  lemma SplitNone(a: string, c: char)
    requires c !in a
    ensures Split(a, c) == [a]
  {
    assert a[..|a|] == a;
    IndexOfFirst(a, c, |a|);
  }

  /** Splitting undoes joining when no part holds the separator. */
  lemma {:induction false} SplitOfJoin(parts: seq<string>, c: char)
    requires parts != [] && forall k :: 0 <= k < |parts| ==> c !in parts[k]
    ensures Split(Join(parts, c), c) == parts
  {
    if |parts| == 1 {
      SplitNone(parts[0], c);
    } else {
      SplitOfJoin(parts[1..], c);
      SplitHead(parts[0], c, Join(parts[1..], c));
    }
  }

  // --- Trimming and lower case ---

  /** The white space among the Latin-1 characters. */
  predicate IsSpace(c: char) {
    var n := c as int;
    9 <= n <= 13 || n == 0x20 || n == 0x85 || n == 0xA0
  }

  function TrimStart(s: string): string {
    if s != "" && IsSpace(s[0]) then TrimStart(s[1..]) else s
  }

  function TrimEnd(s: string): string {
    if s != "" && IsSpace(s[|s| - 1]) then TrimEnd(s[..|s| - 1]) else s
  }

  function Trim(s: string): string {
    TrimEnd(TrimStart(s))
  }

  predicate Trimmed(s: string) {
    s == "" || (!IsSpace(s[0]) && !IsSpace(s[|s| - 1]))
  }

  function LowerChar(c: char): char {
    var n := c as int;
    if 0x41 <= n <= 0x5A || (0xC0 <= n <= 0xDE && n != 0xD7) then (n + 0x20) as char else c
  }

  /** Lower case of Latin-1 text. */
  function Lower(s: string): (l: string)
    ensures |l| == |s| && forall k :: 0 <= k < |s| ==> l[k] == LowerChar(s[k])
  {
    seq(|s|, k requires 0 <= k < |s| => LowerChar(s[k]))
  }

  predicate Lowered(s: string) {
    Lower(s) == s
  }

  // --- Numbers ---

  predicate IsDigit(c: char) {
    '0' <= c <= '9'
  }

  function DigitOf(d: nat): (c: char)
    requires d < 10
    ensures IsDigit(c) && c as int - '0' as int == d
  {
    (d + 48) as char
  }

  function Decimal(n: nat): (s: string)
    ensures s != "" && forall k :: 0 <= k < |s| ==> IsDigit(s[k])
  {
    if n < 10 then [DigitOf(n)] else Decimal(n / 10) + [DigitOf(n % 10)]
  }

  /** The number that a string of digits denotes. */
  function DigitsValue(s: string): nat
    requires forall k :: 0 <= k < |s| ==> IsDigit(s[k])
  {
    if s == "" then 0
    else
      assert IsDigit(s[|s| - 1]);
      10 * DigitsValue(s[..|s| - 1]) + (s[|s| - 1] as int - '0' as int)
  }

  /** Parsing an unsigned number: an optional plus sign, then at least one digit, and no
      overflow of the type. */
  function ParseUnsigned(s: string, limit: nat): Option<nat> {
    var digits := if s != "" && s[0] == '+' then s[1..] else s;
    if digits == "" || (exists k :: 0 <= k < |digits| && !IsDigit(digits[k])) then None
    else
      var n := DigitsValue(digits);
      if n < limit then Some(n) else None
  }

  lemma {:induction false} ValueOfDecimal(n: nat)
    ensures DigitsValue(Decimal(n)) == n
  {
    if n < 10 {
      assert Decimal(n)[..0] == "";
    } else {
      ValueOfDecimal(n / 10);
      var s := Decimal(n);
      assert s[..|s| - 1] == Decimal(n / 10);
    }
  }

  /** Printing a number and parsing it gives it back when it fits the type. */
  lemma DecimalParses(n: nat, limit: nat)
    ensures ParseUnsigned(Decimal(n), limit) == if n < limit then Some(n) else None
  {
    ValueOfDecimal(n);
    assert IsDigit(Decimal(n)[0]);
  }

  lemma DecimalIsPlain(n: nat)
    ensures var s := Decimal(n); Ascii(s) && Trimmed(s) && '\r' !in s && ' ' !in s
  {
    var s := Decimal(n);
    forall k | 0 <= k < |s|
      ensures (s[k] as int) < 128 && !IsSpace(s[k]) && s[k] != '\r' && s[k] != ' '
    {
      assert IsDigit(s[k]);
    }
  }
}
