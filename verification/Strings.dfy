/** The .NET string operations used by the connection-string parser, on sequences of characters. */
module Strings {
  import opened Options

  /** char.IsWhiteSpace. */
  predicate IsWhiteSpace(c: char) {
    var n := c as int;
    || 0x09 <= n <= 0x0D || n == 0x20 || n == 0x85 || n == 0xA0 || n == 0x1680
    || 0x2000 <= n <= 0x200A || n == 0x2028 || n == 0x2029 || n == 0x202F || n == 0x205F || n == 0x3000
  }

  predicate Blank(s: string) {
    forall i :: 0 <= i < |s| ==> IsWhiteSpace(s[i])
  }

  function TrimStart(s: string): string {
    if s != "" && IsWhiteSpace(s[0]) then TrimStart(s[1..]) else s
  }

  function TrimEnd(s: string): string {
    if s != "" && IsWhiteSpace(s[|s| - 1]) then TrimEnd(s[..|s| - 1]) else s
  }

  function Trim(s: string): string {
    TrimEnd(TrimStart(s))
  }

  /** ToLowerInvariant, for comparison with the ASCII words that the parser knows. */
  function Lower(s: string): string {
    seq(|s|, i requires 0 <= i < |s| => LowerChar(s[i]))
  }

  function LowerChar(c: char): char {
    if 'A' <= c <= 'Z' then c - 'A' + 'a' else c
  }

  /** Split(sep): the pieces between the separators, at least one. */
  function Split(s: string, sep: char): (pieces: seq<string>)
    ensures |pieces| >= 1
  {
    if s == "" then [""] else Grow(s[0], sep, Split(s[1..], sep))
  }

  /** One more character in front: a separator starts a new piece. */
  function Grow(c: char, sep: char, pieces: seq<string>): (grown: seq<string>)
    requires |pieces| >= 1
    ensures |grown| >= 1
  {
    if c == sep then [""] + pieces else [[c] + pieces[0]] + pieces[1..]
  }

  lemma GrowJoined(c: char, sep: char, p: seq<string>, q: seq<string>)
    requires |p| >= 1
    ensures Grow(c, sep, p + q) == Grow(c, sep, p) + q
  {
    if c == sep {
      assert [""] + (p + q) == ([""] + p) + q;
    } else {
      assert (p + q)[0] == p[0] && (p + q)[1..] == p[1..] + q;
    }
  }

  /** Split(sep, 2): one piece, or the text before and after the first separator. */
  function SplitTwo(s: string, sep: char): (pieces: seq<string>)
    ensures |pieces| == 1 || |pieces| == 2
  {
    if s == "" then [""]
    else if s[0] == sep then ["", s[1..]]
    else
      var rest := SplitTwo(s[1..], sep);
      [[s[0]] + rest[0]] + rest[1..]
  }

  /** Joining two texts by the separator joins their pieces. */
  lemma {:induction false} SplitJoined(a: string, b: string, sep: char)
    ensures Split(a + [sep] + b, sep) == Split(a, sep) + Split(b, sep)
  {
    hide Grow;
    var s := a + [sep] + b;
    if a == "" {
      assert s[0] == sep && s[1..] == b;
      assert Grow(sep, sep, Split(b, sep)) == [""] + Split(b, sep) by { GrowSeparator(sep, Split(b, sep)); }
    } else {
      assert s[0] == a[0] && s[1..] == a[1..] + [sep] + b;
      SplitJoined(a[1..], b, sep);
      GrowJoined(a[0], sep, Split(a[1..], sep), Split(b, sep));
    }
  }

  lemma GrowSeparator(sep: char, pieces: seq<string>)
    requires |pieces| >= 1
    ensures Grow(sep, sep, pieces) == [""] + pieces
  {}

  /** Text in front without a separator lengthens the first piece. */
  lemma {:induction false} SplitPrefixed(a: string, s: string, sep: char)
    requires sep !in a
    ensures Split(a + s, sep) == [a + Split(s, sep)[0]] + Split(s, sep)[1..]
  {
    if a == "" {
      assert a + s == s && a + Split(s, sep)[0] == Split(s, sep)[0];
    } else {
      assert (a + s)[0] == a[0] && (a + s)[1..] == a[1..] + s;
      SplitPrefixed(a[1..], s, sep);
      assert [a[0]] + (a[1..] + Split(s, sep)[0]) == a + Split(s, sep)[0];
    }
  }

  /** No piece holds the separator. */
  lemma {:induction false} SplitPieces(s: string, sep: char)
    ensures forall k :: 0 <= k < |Split(s, sep)| ==> sep !in Split(s, sep)[k]
  {
    if s != "" {
      SplitPieces(s[1..], sep);
      var rest := Split(s[1..], sep);
      var pieces := Split(s, sep);
      forall k | 0 <= k < |pieces|
        ensures sep !in pieces[k]
      {
        if k > 0 {
          assert pieces[k] == if s[0] == sep then rest[k - 1] else rest[k];
        } else {
          assert sep !in rest[0];
        }
      }
    }
  }

  /** Text without the separator is one piece. */
  lemma {:induction false} SplitAbsent(s: string, sep: char)
    requires sep !in s
    ensures Split(s, sep) == [s]
  {
    if s != "" {
      SplitAbsent(s[1..], sep);
      assert s == [s[0]] + s[1..];
    }
  }

  lemma {:induction false} SplitTwoAt(key: string, val: string, sep: char)
    requires sep !in key
    ensures SplitTwo(key + [sep] + val, sep) == [key, val]
  {
    var s := key + [sep] + val;
    if key == "" {
      assert s[1..] == val;
    } else {
      assert s[0] == key[0] && s[1..] == key[1..] + [sep] + val;
      SplitTwoAt(key[1..], val, sep);
      assert SplitTwo(s, sep) == [[key[0]] + key[1..]] + [val];
      assert [key[0]] + key[1..] == key;
    }
  }

  lemma {:induction false} SplitTwoAbsent(s: string, sep: char)
    requires sep !in s
    ensures |SplitTwo(s, sep)| == 1
  {
    if s != "" {
      SplitTwoAbsent(s[1..], sep);
    }
  }

  lemma {:induction false} SplitTwoWithin(s: string, sep: char, other: char)
    requires other !in s
    ensures forall k :: 0 <= k < |SplitTwo(s, sep)| ==> other !in SplitTwo(s, sep)[k]
  {
    if s != "" && s[0] != sep {
      SplitTwoWithin(s[1..], sep, other);
    }
  }

  lemma {:induction false} TrimStartWithin(s: string, c: char)
    ensures c !in s ==> c !in TrimStart(s)
    ensures TrimStart(s) != "" ==> !IsWhiteSpace(TrimStart(s)[0])
  {
    if s != "" && IsWhiteSpace(s[0]) {
      TrimStartWithin(s[1..], c);
    }
  }

  lemma {:induction false} TrimEndWithin(s: string, c: char)
    ensures c !in s ==> c !in TrimEnd(s)
    ensures TrimEnd(s) != "" ==> TrimEnd(s)[0] == s[0] && !IsWhiteSpace(TrimEnd(s)[|TrimEnd(s)| - 1])
    ensures TrimEnd(s) <= s
  {
    if s != "" && IsWhiteSpace(s[|s| - 1]) {
      TrimEndWithin(s[..|s| - 1], c);
    }
  }

  /** Trim leaves nothing to trim, and adds no characters. */
  lemma TrimIdempotent(s: string, c: char)
    ensures Trim(Trim(s)) == Trim(s)
    ensures c !in s ==> c !in Trim(s)
  {
    TrimStartWithin(s, c);
    TrimEndWithin(TrimStart(s), c);
  }

  // ---------- Numbers ----------

  type int32 = n: int | -0x8000_0000 <= n < 0x8000_0000

  predicate IsDigit(c: char) {
    '0' <= c <= '9'
  }

  function DigitValue(c: char): nat
    requires IsDigit(c)
  {
    c as int - '0' as int
  }

  function DigitChar(d: nat): (c: char)
    requires d < 10
    ensures IsDigit(c) && DigitValue(c) == d
  {
    '0' + d as char
  }

  predicate AllDigits(s: string) {
    forall i :: 0 <= i < |s| ==> IsDigit(s[i])
  }

  function DecimalValue(s: string): nat
    requires AllDigits(s)
  {
    if s == "" then 0 else 10 * DecimalValue(s[..|s| - 1]) + DigitValue(s[|s| - 1])
  }

  function LeadingDigits(s: string): (d: string)
    ensures AllDigits(d) && d <= s
  {
    if s != "" && IsDigit(s[0]) then [s[0]] + LeadingDigits(s[1..]) else ""
  }

  /** What int.TryParse tolerates after the digits: blanks, then NUL characters. */
  predicate IsTail(s: string) {
    if s != "" && (0x09 <= s[0] as int <= 0x0D || s[0] == ' ') then IsTail(s[1..])
    else forall i :: 0 <= i < |s| ==> s[i] as int == 0
  }

  /** The digits of a number, and its range check. */
  function ParseMagnitude(negative: bool, body: string): Option<int32> {
    var digits := LeadingDigits(body);
    if digits == "" || !IsTail(body[|digits|..]) then None else
    var n: int := if negative then 0 - DecimalValue(digits) else DecimalValue(digits);
    if -0x8000_0000 <= n < 0x8000_0000 then Some(n) else None
  }

  /** int.TryParse on text that starts with no blank, with '+' and '-' as the culture's signs. */
  function TryParse(s: string): Option<int32> {
    if s != "" && (s[0] == '-' || s[0] == '+') then ParseMagnitude(s[0] == '-', s[1..]) else ParseMagnitude(false, s)
  }

  function NatText(n: nat): (s: string)
    ensures s != "" && AllDigits(s) && DecimalValue(s) == n
  {
    if n < 10 then [DigitChar(n)] else NatText(n / 10) + [DigitChar(n % 10)]
  }

  /** The decimal text of a 32-bit integer. */
  function IntText(n: int32): string {
    if n < 0 then "-" + NatText(0 - n as int) else NatText(n)
  }

  lemma {:induction false} AllLeading(s: string)
    requires AllDigits(s)
    ensures LeadingDigits(s) == s
  {
    if s != "" {
      AllLeading(s[1..]);
    }
  }

  /** Text with no blank at either end. */
  lemma Untrimmed(s: string)
    requires s != "" && !IsWhiteSpace(s[0]) && !IsWhiteSpace(s[|s| - 1])
    ensures Trim(s) == s
  {}

  lemma ParseDigits(negative: bool, digits: string, n: nat)
    requires digits != "" && AllDigits(digits) && DecimalValue(digits) == n
    requires if negative then n <= 0x8000_0000 else n < 0x8000_0000
    ensures ParseMagnitude(negative, digits) == Some(if negative then 0 - n else n)
  {
    AllLeading(digits);
    NoTail();
    hide LeadingDigits, DecimalValue, IsTail, AllDigits;
    assert digits[|digits|..] == "";
  }

  lemma SignApart(digits: string)
    requires digits != "" && IsDigit(digits[0])
    ensures TryParse(digits) == ParseMagnitude(false, digits)
    ensures TryParse("-" + digits) == ParseMagnitude(true, digits)
  {
    hide ParseMagnitude;
    assert ("-" + digits)[1..] == digits;
  }

  lemma NoTail()
    ensures IsTail("")
  {}

  /** int.TryParse recovers every 32-bit integer from its text. */
  lemma TryParseIntText(n: int32)
    ensures TryParse(IntText(n)) == Some(n)
  {
    hide TryParse, ParseMagnitude;
    var digits := NatText(if n < 0 then 0 - n as int else n);
    SignApart(digits);
    ParseDigits(n < 0, digits, if n < 0 then 0 - n as int else n);
  }

  lemma IntTextPlain(n: int32)
    ensures Trim(IntText(n)) == IntText(n) && ';' !in IntText(n)
  {
    var text := IntText(n);
    assert forall i :: 0 <= i < |text| ==> IsDigit(text[i]) || text[i] == '-';
    assert !IsWhiteSpace(text[0]) && !IsWhiteSpace(text[|text| - 1]);
    Untrimmed(text);
  }
}
