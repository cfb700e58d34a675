/** String helpers that mirror the JavaScript built-ins the app uses. */
module Strings {
  import opened Common

  /** The text before the first `c`, or all of `s` when it holds none
      (`s.split(c)[0]` in JavaScript). */
  function Before(s: string, c: char): (r: string)
    ensures r <= s
    ensures c !in r
    ensures |r| < |s| ==> s[|r|] == c
    ensures c in s <==> |r| < |s|
  {
    if s == [] then []
    else if s[0] == c then []
    else [s[0]] + Before(s[1..], c)
  }

  /** `s.split(c)` for a one-character separator. */
  function Split(s: string, c: char): (parts: seq<string>)
    ensures |parts| >= 1
    ensures parts[0] == Before(s, c)
    ensures forall p :: p in parts ==> c !in p
    decreases |s|
  {
    var h := Before(s, c);
    if |h| == |s| then [s] else [h] + Split(s[|h| + 1..], c)
  }

  /** A character that `s` does not hold is in none of its parts. */
  lemma {:induction false} SplitAvoids(s: string, c: char, d: char)
    requires d !in s
    ensures forall i :: 0 <= i < |Split(s, c)| ==> d !in Split(s, c)[i]
    decreases |s|
  {
    var h := Before(s, c);
    if |h| < |s| {
      var rest := s[|h| + 1..];
      assert d !in h by { assert h <= s; }
      assert d !in rest by { assert forall k :: 0 <= k < |rest| ==> rest[k] == s[|h| + 1 + k]; }
      SplitAvoids(rest, c, d);
      SplitStep(s, c);
    }
  }

  /** `parts.join(c)`. */
  function Join(parts: seq<string>, c: char): string
  {
    if |parts| == 0 then []
    else if |parts| == 1 then parts[0]
    else parts[0] + [c] + Join(parts[1..], c)
  }

  /** Splitting and joining with the same separator gives back the string. */
  lemma {:induction false} JoinSplit(s: string, c: char)
    ensures Join(Split(s, c), c) == s
    decreases |s|
  {
    var h := Before(s, c);
    if |h| < |s| {
      var rest := s[|h| + 1..];
      calc {
        Join(Split(s, c), c);
      == { SplitStep(s, c); }
        Join([h] + Split(rest, c), c);
      == { JoinCons(h, Split(rest, c), c); }
        h + [c] + Join(Split(rest, c), c);
      == { JoinSplit(rest, c); }
        h + [c] + rest;
      == { BeforeSeparator(s, c); }
        s;
      }
    }
  }

  /** A string that holds `c` is the text before it, `c`, and the rest. */
  lemma BeforeSeparator(s: string, c: char)
    requires |Before(s, c)| < |s|
    ensures s == Before(s, c) + [c] + s[|Before(s, c)| + 1..]
  {
    var h := Before(s, c);
    assert s == s[..|h|] + [s[|h|]] + s[|h| + 1..];
  }

  /** One step of `Split`: the text before the first separator, then the
      split of what follows it. */
  lemma SplitStep(s: string, c: char)
    requires |Before(s, c)| < |s|
    ensures Split(s, c) == [Before(s, c)] + Split(s[|Before(s, c)| + 1..], c)
  {
  }

  /** One step of `Join` over a non-empty tail. */
  lemma JoinCons(h: string, parts: seq<string>, c: char)
    requires |parts| >= 1
    ensures Join([h] + parts, c) == h + [c] + Join(parts, c)
  {
    assert ([h] + parts)[0] == h && ([h] + parts)[1..] == parts;
  }

  /** `s.replace(a, b)` with a one-character pattern: only the FIRST `a`
      is replaced. */
  function ReplaceFirst(s: string, a: char, b: char): (r: string)
    ensures |r| == |s|
    ensures a !in s ==> r == s
    ensures a in s ==> r == Before(s, a) + [b] + s[|Before(s, a)| + 1..]
  {
    if s == [] then []
    else if s[0] == a then [b] + s[1..]
    else [s[0]] + ReplaceFirst(s[1..], a, b)
  }

  /** Position by position: only the first `a` changes, into `b`. */
  lemma ReplaceFirstAt(s: string, a: char, b: char)
    ensures var r := ReplaceFirst(s, a, b);
      var i := |Before(s, a)|;
      && (forall k :: 0 <= k < |r| && k != i ==> r[k] == s[k])
      && (a in s ==> r[i] == b)
  {
    var r := ReplaceFirst(s, a, b);
    var i := |Before(s, a)|;
    if a in s {
      assert forall k :: 0 <= k < i ==> r[k] == Before(s, a)[k] == s[k];
      assert forall k :: i < k < |r| ==> r[k] == s[i + 1..][k - i - 1];
    }
  }

  /** A character other than `b` that `s` does not hold is not in the result. */
  lemma ReplaceFirstAvoids(s: string, a: char, b: char, d: char)
    requires d !in s && d != b
    ensures d !in ReplaceFirst(s, a, b)
  {
    var r := ReplaceFirst(s, a, b);
    ReplaceFirstAt(s, a, b);
    forall k | 0 <= k < |r| ensures r[k] != d {
      if k != |Before(s, a)| {
        assert s[k] in s;
      }
    }
  }

  /** `s.startsWith([c])`. */
  predicate StartsWith(s: string, c: char) {
    |s| > 0 && s[0] == c
  }

  /** The characters `String.prototype.trim` removes: ECMAScript WhiteSpace
      and LineTerminator code points. */
  predicate IsJsSpace(c: char) {
    var n := c as int;
    n == 0x09 || n == 0x0A || n == 0x0B || n == 0x0C || n == 0x0D || n == 0x20 ||
    n == 0xA0 || n == 0x1680 || (0x2000 <= n <= 0x200A) || n == 0x2028 ||
    n == 0x2029 || n == 0x202F || n == 0x205F || n == 0x3000 || n == 0xFEFF
  }

  /** How many white-space characters `s` starts with. */
  function LeadingSpace(s: string): (n: nat)
    ensures n <= |s|
    ensures forall i :: 0 <= i < n ==> IsJsSpace(s[i])
    ensures n < |s| ==> !IsJsSpace(s[n])
  {
    if s != [] && IsJsSpace(s[0]) then 1 + LeadingSpace(s[1..]) else 0
  }

  /** How many white-space characters `s` ends with. */
  function TrailingSpace(s: string): (n: nat)
    ensures n <= |s|
    ensures forall i :: |s| - n <= i < |s| ==> IsJsSpace(s[i])
    ensures n < |s| ==> !IsJsSpace(s[|s| - 1 - n])
  {
    if s != [] && IsJsSpace(s[|s| - 1]) then 1 + TrailingSpace(s[..|s| - 1]) else 0
  }

  /** `s.trim()`: `s` without the white space at either end. */
  function Trim(s: string): (r: string)
    ensures LeadingSpace(s) + |r| <= |s|
    ensures r == s[LeadingSpace(s)..LeadingSpace(s) + |r|]
    ensures r != [] ==> !IsJsSpace(r[0]) && !IsJsSpace(r[|r| - 1])
    ensures forall i :: LeadingSpace(s) + |r| <= i < |s| ==> IsJsSpace(s[i])
    ensures r == [] <==> forall i :: 0 <= i < |s| ==> IsJsSpace(s[i])
  {
    var a := LeadingSpace(s);
    var u := s[a..];
    var r := u[..|u| - TrailingSpace(u)];
    assert r == s[a..a + |r|];
    assert forall i :: a + |r| <= i < |s| ==> s[i] == u[i - a];
    r
  }

  /** The length JavaScript reports for a string: UTF-16 code units, so a
      code point above U+FFFF counts twice. */
  function Utf16Length(s: string): (n: nat)
    ensures |s| <= n <= 2 * |s|
  {
    if s == [] then 0
    else (if s[0] as int > 0xFFFF then 2 else 1) + Utf16Length(s[1..])
  }

  /** A UTF-16 code unit: what a JavaScript string holds at each index. */
  type CodeUnit = x: int | 0 <= x < 0x1_0000

  /** The UTF-16 encoding of one character: itself below U+10000, else a
      high surrogate followed by a low one. */
  function Utf16Char(c: char): (u: seq<CodeUnit>)
    ensures |u| == if c as int > 0xFFFF then 2 else 1
    ensures |u| == 1 ==> u[0] == c as int
    ensures |u| == 2 ==>
      && 0xD800 <= u[0] < 0xDC00 <= u[1] < 0xE000
      && 0x1_0000 + (u[0] as int - 0xD800) * 0x400 + (u[1] as int - 0xDC00) == c as int
  {
    if c as int <= 0xFFFF then [c as int]
    else
      var v := c as int - 0x1_0000;
      [0xD800 + v / 0x400, 0xDC00 + v % 0x400]
  }

  /** A string as JavaScript stores it: its characters' code units in order. */
  function Utf16(s: string): (u: seq<CodeUnit>)
    ensures |u| == Utf16Length(s)
    ensures s != [] ==> u[..|Utf16Char(s[0])|] == Utf16Char(s[0])
  {
    if s == [] then [] else Utf16Char(s[0]) + Utf16(s[1..])
  }

  /** `s[0]` on a non-empty JavaScript string: its first code unit, which is
      the first character itself below U+10000 and a high surrogate above. */
  function FirstCodeUnit(s: string): (u: CodeUnit)
    requires s != []
    ensures s[0] as int <= 0xFFFF ==> u == s[0] as int
    ensures s[0] as int > 0xFFFF ==> 0xD800 <= u < 0xDC00
  {
    Utf16(s)[0]
  }

  /** The lower-case hexadecimal digit for `n`. */
  function HexDigit(n: int): (c: char)
    requires 0 <= n < 16
    ensures IsHexDigit(c)
  {
    if n < 10 then ('0' as int + n) as char else ('a' as int + n - 10) as char
  }

  predicate IsHexDigit(c: char) {
    '0' <= c <= '9' || 'a' <= c <= 'f'
  }

  function HexValue(c: char): (n: int)
    requires IsHexDigit(c)
    ensures 0 <= n < 16 && HexDigit(n) == c
  {
    if c <= '9' then c as int - '0' as int else c as int - 'a' as int + 10
  }

  /** Node's `buffer.toString("hex")`: two lower-case digits per byte, high
      nibble first. */
  function HexEncode(bytes: seq<Byte>): (s: string)
    ensures |s| == 2 * |bytes|
    ensures forall i :: 0 <= i < |s| ==> IsHexDigit(s[i])
  {
    if bytes == [] then []
    else [HexDigit(bytes[0] / 16), HexDigit(bytes[0] % 16)] + HexEncode(bytes[1..])
  }

  /** Reads back what `HexEncode` wrote. */
  function HexDecode(s: string): (bytes: seq<Byte>)
    requires |s| % 2 == 0
    requires forall i :: 0 <= i < |s| ==> IsHexDigit(s[i])
    ensures |bytes| == |s| / 2
  {
    if s == [] then []
    else [(HexValue(s[0]) * 16 + HexValue(s[1]))] + HexDecode(s[2..])
  }

  lemma {:induction false} HexRoundTrip(bytes: seq<Byte>)
    ensures HexDecode(HexEncode(bytes)) == bytes
  {
    if bytes != [] {
      var s := HexEncode(bytes);
      HexByte(bytes[0]);
      assert s[2..] == HexEncode(bytes[1..]);
      HexRoundTrip(bytes[1..]);
    }
  }

  lemma HexByte(b: Byte)
    ensures HexValue(HexDigit(b / 16)) * 16 + HexValue(HexDigit(b % 16)) == b
  {
    DigitValue(b / 16);
    DigitValue(b % 16);
  }

  lemma DigitValue(n: int)
    requires 0 <= n < 16
    ensures HexValue(HexDigit(n)) == n
  {
  }

  /** Distinct random bytes give distinct hexadecimal ids. */
  lemma HexInjective(a: seq<Byte>, b: seq<Byte>)
    requires HexEncode(a) == HexEncode(b)
    ensures a == b
  {
    HexRoundTrip(a);
    HexRoundTrip(b);
  }
}
