/**
 * The JavaScript string and number primitives the handlers rely on, as pure functions:
 * `String(n)` for integers, `parseInt` with the default radix, `padStart`, `slice(-n)`,
 * `trim`, `toLowerCase` (ASCII letters), `startsWith`, `indexOf`, `lastIndexOf`,
 * `split` and `join` with a one-character separator.
 * Strings are sequences of characters; a JavaScript length counts UTF-16 code units,
 * which agrees with this model for text in the Basic Multilingual Plane.
 */
module JsText {
  import opened Wrappers

  // ---------------------------------------------------------------- digits

  predicate IsDigit(c: char) { '0' <= c <= '9' }

  predicate AllDigits(s: string) { forall i :: 0 <= i < |s| ==> IsDigit(s[i]) }

  function DigitChar(d: nat): (c: char)
    requires d < 10
    ensures IsDigit(c)
  {
    ('0' as int + d) as char
  }

  function DigitValue(c: char): (d: nat)
    requires IsDigit(c)
    ensures d < 10 && DigitChar(d) == c
  {
    c as int - '0' as int
  }

  function Pow10(k: nat): (p: nat)
    ensures p >= 1
  {
    if k == 0 then 1 else 10 * Pow10(k - 1)
  }

  /** `String(n)` for a non-negative integer: decimal digits, most significant first. */
  function NatToString(n: nat): (s: string)
    ensures 1 <= |s| && AllDigits(s)
    decreases n
  {
    if n < 10 then [DigitChar(n)] else NatToString(n / 10) + [DigitChar(n % 10)]
  }

  /** `String(n)` for any integer. */
  function IntToString(n: int): (s: string)
    ensures n >= 0 ==> s == NatToString(n)
    ensures n < 0 ==> s == "-" + NatToString(-n)
  {
    if n < 0 then "-" + NatToString(-n) else NatToString(n)
  }

  /** The number a string of decimal digits denotes (leading zeros allowed). */
  function DigitsValue(s: string): nat
    requires AllDigits(s)
  {
    if s == [] then 0 else 10 * DigitsValue(s[..|s| - 1]) + DigitValue(s[|s| - 1])
  }

  /** Printing then reading a natural number gives it back. */
  lemma {:induction false} NatToStringValue(n: nat)
    ensures DigitsValue(NatToString(n)) == n
    decreases n
  {
    if n >= 10 {
      var s := NatToString(n);
      NatToStringValue(n / 10);
      assert s[..|s| - 1] == NatToString(n / 10);
    }
  }

  /** A decimal rendering fits in k characters exactly when the number is below 10^k. */
  lemma {:induction false} NatToStringLength(n: nat, k: nat)
    requires k >= 1
    ensures |NatToString(n)| <= k <==> n < Pow10(k)
    decreases n
  {
    if n >= 10 {
      if k == 1 {
        assert Pow10(1) == 10;
        assert |NatToString(n)| >= 2 by { NatToStringAtLeastTwo(n); }
      } else {
        NatToStringLength(n / 10, k - 1);
      }
    }
  }

  lemma NatToStringAtLeastTwo(n: nat)
    requires n >= 10
    ensures |NatToString(n)| >= 2
  {
  }

  lemma AllDigitsConcat(a: string, b: string)
    requires AllDigits(a) && AllDigits(b)
    ensures AllDigits(a + b)
  {
    forall i | 0 <= i < |a + b| ensures IsDigit((a + b)[i]) {
      if i < |a| { assert (a + b)[i] == a[i]; } else { assert (a + b)[i] == b[i - |a|]; }
    }
  }

  /** Leading zeros do not change the value of a digit string. */
  lemma {:induction false} LeadingZerosValue(z: nat, s: string)
    requires AllDigits(s)
    ensures AllDigits(Repeat('0', z) + s)
    ensures DigitsValue(Repeat('0', z) + s) == DigitsValue(s)
    decreases |s|
  {
    var t := Repeat('0', z) + s;
    assert AllDigits(t) by {
      forall i | 0 <= i < |t| ensures IsDigit(t[i]) {
        if i < z { assert t[i] == '0'; } else { assert t[i] == s[i - z]; }
      }
    }
    if s == [] {
      assert t == Repeat('0', z);
      AllZerosValue(z);
    } else {
      var s' := s[..|s| - 1];
      assert t[..|t| - 1] == Repeat('0', z) + s';
      LeadingZerosValue(z, s');
    }
  }

  lemma {:induction false} AllZerosValue(z: nat)
    ensures AllDigits(Repeat('0', z)) && DigitsValue(Repeat('0', z)) == 0
  {
    if z > 0 {
      assert Repeat('0', z)[..z - 1] == Repeat('0', z - 1);
      AllZerosValue(z - 1);
    }
  }

  // ---------------------------------------------------------------- padding and slicing

  function Repeat(c: char, n: nat): (s: string)
    ensures |s| == n && forall i :: 0 <= i < n ==> s[i] == c
  {
    if n == 0 then [] else [c] + Repeat(c, n - 1)
  }

  /** `s.padStart(n, c)`: fill with c on the left up to length n; a longer string is kept whole. */
  function PadStart(s: string, n: nat, c: char): (r: string)
    ensures |r| == if |s| >= n then |s| else n
    ensures r[|r| - |s|..] == s
    ensures forall i :: 0 <= i < |r| - |s| ==> r[i] == c
  {
    if |s| >= n then s else Repeat(c, n - |s|) + s
  }

  /** `s.slice(-n)`: the last n characters, or all of s when it is shorter (or when n is 0). */
  function SliceLast(s: string, n: nat): (r: string)
    ensures |r| == if n == 0 || n >= |s| then |s| else n
    ensures r == s[|s| - |r|..]
  {
    if n == 0 || n >= |s| then s else s[|s| - n..]
  }

  predicate StartsWith(s: string, prefix: string) {
    |prefix| <= |s| && s[..|prefix|] == prefix
  }

  // ---------------------------------------------------------------- whitespace and case

  /** ECMAScript WhiteSpace and LineTerminator code points: what `trim` and `parseInt` skip. */
  predicate IsJsSpace(c: char) {
    c == '\t' || c == '\n' || c == '\U{B}' || c == '\U{C}' || c == '\r' || c == ' '
    || c == '\U{A0}' || c == '\U{1680}' || ('\U{2000}' <= c <= '\U{200A}')
    || c == '\U{2028}' || c == '\U{2029}' || c == '\U{202F}' || c == '\U{205F}'
    || c == '\U{3000}' || c == '\U{FEFF}'
  }

  /** The number of white-space characters `s` starts with. */
  function LeadingSpaces(s: string): (n: nat)
    ensures n <= |s| && (n == |s| || !IsJsSpace(s[n]))
  {
    if s != [] && IsJsSpace(s[0]) then 1 + LeadingSpaces(s[1..]) else 0
  }

  function TrimStart(s: string): (r: string)
    ensures |r| <= |s| && r == s[|s| - |r|..]
    ensures r == [] || !IsJsSpace(r[0])
  {
    s[LeadingSpaces(s)..]
  }

  function TrimEnd(s: string): (r: string)
    ensures |r| <= |s| && r == s[..|r|]
    ensures r == [] || !IsJsSpace(r[|r| - 1])
  {
    if s != [] && IsJsSpace(s[|s| - 1]) then TrimEnd(s[..|s| - 1]) else s
  }

  /** What `trimStart` drops is white space. */
  lemma {:induction false} TrimStartDropsSpace(s: string)
    ensures forall i :: 0 <= i < |s| - |TrimStart(s)| ==> IsJsSpace(s[i])
  {
    if s != [] && IsJsSpace(s[0]) {
      TrimStartDropsSpace(s[1..]);
      assert TrimStart(s) == TrimStart(s[1..]);
    }
  }

  /** What `trimEnd` drops is white space. */
  lemma {:induction false} TrimEndDropsSpace(s: string)
    ensures forall i :: |TrimEnd(s)| <= i < |s| ==> IsJsSpace(s[i])
  {
    if s != [] && IsJsSpace(s[|s| - 1]) {
      TrimEndDropsSpace(s[..|s| - 1]);
    }
  }

  /** `s.trim()`. */
  function Trim(s: string): string {
    TrimEnd(TrimStart(s))
  }

  function LowerChar(c: char): char {
    if 'A' <= c <= 'Z' then (c as int + 32) as char else c
  }

  /** `s.toLowerCase()` on ASCII letters; every other character is kept. */
  function ToLower(s: string): (r: string)
    ensures |r| == |s|
  {
    if s == [] then [] else [LowerChar(s[0])] + ToLower(s[1..])
  }

  /** Each character is lowered on its own. */
  lemma {:induction false} ToLowerAt(s: string)
    ensures forall i :: 0 <= i < |s| ==> ToLower(s)[i] == LowerChar(s[i])
  {
    if s != [] {
      ToLowerAt(s[1..]);
    }
  }

  /** The character at one position, without the quantifier of ToLowerAt. */
  lemma {:induction false} ToLowerIndex(s: string, i: nat)
    requires i < |s|
    ensures ToLower(s)[i] == LowerChar(s[i])
    decreases i
  {
    if i > 0 {
      ToLowerIndex(s[1..], i - 1);
    }
  }

  /** Lowercasing neither creates nor removes white space. */
  lemma LowerKeepsSpace(c: char)
    ensures IsJsSpace(LowerChar(c)) == IsJsSpace(c)
  {
  }

  lemma {:induction false} TrimStartLower(s: string)
    ensures TrimStart(ToLower(s)) == ToLower(TrimStart(s))
  {
    if s != [] {
      LowerKeepsSpace(s[0]);
      assert ToLower(s)[1..] == ToLower(s[1..]);
      TrimStartLower(s[1..]);
      if IsJsSpace(s[0]) {
        assert TrimStart(s) == TrimStart(s[1..]);
        assert TrimStart(ToLower(s)) == TrimStart(ToLower(s)[1..]);
      }
    }
  }

  /** Lowering commutes with dropping the last character. */
  lemma {:induction false} ToLowerInit(s: string)
    requires s != []
    ensures ToLower(s)[..|s| - 1] == ToLower(s[..|s| - 1])
    ensures ToLower(s)[|s| - 1] == LowerChar(s[|s| - 1])
  {
    if |s| > 1 {
      ToLowerInit(s[1..]);
      assert s[1..][..|s| - 2] == s[..|s| - 1][1..];
    }
  }

  lemma {:induction false} TrimEndLower(s: string)
    ensures TrimEnd(ToLower(s)) == ToLower(TrimEnd(s))
  {
    if s != [] {
      LowerKeepsSpace(s[|s| - 1]);
      ToLowerInit(s);
      TrimEndLower(s[..|s| - 1]);
    }
  }

  /** `s.toLowerCase().trim()` and `s.trim().toLowerCase()` agree. */
  lemma TrimLowerCommute(s: string)
    ensures Trim(ToLower(s)) == ToLower(Trim(s))
  {
    TrimStartLower(s);
    TrimEndLower(TrimStart(s));
  }

  /** Trimming twice is trimming once. */
  lemma TrimIdempotent(s: string)
    ensures Trim(Trim(s)) == Trim(s)
  {
    var t := Trim(s);
    assert TrimStart(t) == t;
    assert TrimEnd(t) == t;
  }

  /** Lowercasing twice is lowercasing once. */
  lemma {:induction false} ToLowerIdempotent(s: string)
    ensures ToLower(ToLower(s)) == ToLower(s)
  {
    if s != [] {
      assert ToLower(s)[1..] == ToLower(s[1..]);
      ToLowerIdempotent(s[1..]);
    }
  }

  // ---------------------------------------------------------------- searching

  /** `s.indexOf(c)`: first position of c, or -1. */
  function IndexOfChar(s: string, c: char): (k: int)
    ensures -1 <= k < |s|
    ensures k == -1 <==> c !in s
    ensures k >= 0 ==> s[k] == c && forall j :: 0 <= j < k ==> s[j] != c
  {
    if s == [] then -1
    else if s[0] == c then 0
    else
      var k := IndexOfChar(s[1..], c);
      if k < 0 then -1 else k + 1
  }

  /** The first c of `a + [c] + rest` is the one after a, when a has none. */
  lemma IndexOfCharAfter(a: string, c: char, rest: string)
    requires c !in a
    ensures IndexOfChar(a + [c] + rest, c) == |a|
  {
    var s := a + [c] + rest;
    assert s[|a|] == c;
    assert forall j :: 0 <= j < |a| ==> s[j] == a[j];
  }

  /** `s.lastIndexOf(c)`: last position of c, or -1. */
  function LastIndexOfChar(s: string, c: char): (k: int)
    ensures -1 <= k < |s|
    ensures k == -1 <==> c !in s
    ensures k >= 0 ==> s[k] == c && forall j :: k < j < |s| ==> s[j] != c
  {
    if s == [] then -1
    else if s[|s| - 1] == c then |s| - 1
    else LastIndexOfChar(s[..|s| - 1], c)
  }

  /** The last c of `a + [c] + b` is the one before b, when b has none. */
  lemma LastIndexOfCharBefore(a: string, c: char, b: string)
    requires c !in b
    ensures LastIndexOfChar(a + [c] + b, c) == |a|
  {
    var s := a + [c] + b;
    assert s[|a|] == c;
  }

  predicate OccursAt(s: string, t: string, i: nat) {
    i + |t| <= |s| && s[i..i + |t|] == t
  }

  /** `s.indexOf(t)` for a non-empty t: first position where t occurs, or -1. */
  function IndexOfSub(s: string, t: string, from: nat := 0): (k: int)
    requires from <= |s|
    ensures k == -1 || (from <= k && OccursAt(s, t, k))
    ensures k == -1 ==> forall i :: from <= i <= |s| ==> !OccursAt(s, t, i)
    ensures k >= 0 ==> forall i :: from <= i < k ==> !OccursAt(s, t, i)
    decreases |s| - from
  {
    if OccursAt(s, t, from) then from
    else if from == |s| then -1
    else IndexOfSub(s, t, from + 1)
  }

  // ---------------------------------------------------------------- split and join

  /** `s.split(c)` for a one-character separator: never empty, the pieces between separators. */
  function Split(s: string, c: char): (parts: seq<string>)
    ensures |parts| >= 1
    ensures c !in s ==> parts == [s]
    ensures c in s ==> parts[0] == s[..IndexOfChar(s, c)]
    decreases |s|
  {
    if c !in s then [s]
    else
      var k := IndexOfChar(s, c);
      [s[..k]] + Split(s[k + 1..], c)
  }

  /** `parts.join(c)`. */
  function Join(parts: seq<string>, c: char): string {
    if parts == [] then ""
    else if |parts| == 1 then parts[0]
    else parts[0] + [c] + Join(parts[1..], c)
  }

  /** A split at the first separator: the piece before it, then the split of the rest. */
  lemma SplitFirst(s: string, c: char, k: nat)
    requires k == IndexOfChar(s, c) && k >= 0
    ensures Split(s, c) == [s[..k]] + Split(s[k + 1..], c)
    ensures s == s[..k] + [c] + s[k + 1..]
  {
  }

  /** Joining a head piece onto joined pieces. */
  lemma JoinCons(head: string, tail: seq<string>, c: char)
    requires tail != []
    ensures Join([head] + tail, c) == head + [c] + Join(tail, c)
  {
    assert ([head] + tail)[1..] == tail;
  }

  /** Joining the pieces of a split with the same separator restores the string. */
  lemma {:induction false} JoinSplit(s: string, c: char)
    ensures Join(Split(s, c), c) == s
    decreases |s|
  {
    var k := IndexOfChar(s, c);
    if k >= 0 {
      var rest := s[k + 1..];
      SplitFirst(s, c, k);
      JoinSplit(rest, c);
      JoinCons(s[..k], Split(rest, c), c);
    }
  }

  /** `s.split(c).slice(1).join(c)` is the text after the first separator. */
  lemma AfterFirstSeparator(s: string, c: char)
    requires c in s
    ensures Join(Split(s, c)[1..], c) == s[IndexOfChar(s, c) + 1..]
  {
    var k := IndexOfChar(s, c);
    var tail := Split(s[k + 1..], c);
    assert Split(s, c) == [s[..k]] + tail;
    assert Split(s, c)[1..] == tail;
    JoinSplit(s[k + 1..], c);
  }

  // ---------------------------------------------------------------- parseInt

  predicate IsHexDigit(c: char) {
    IsDigit(c) || 'a' <= c <= 'f' || 'A' <= c <= 'F'
  }

  function HexValue(c: char): (d: nat)
    requires IsHexDigit(c)
    ensures d < 16
  {
    if IsDigit(c) then DigitValue(c)
    else if 'a' <= c <= 'f' then c as int - 'a' as int + 10
    else c as int - 'A' as int + 10
  }

  function HexDigitsValue(s: string): nat
    requires forall i :: 0 <= i < |s| ==> IsHexDigit(s[i])
  {
    if s == [] then 0 else 16 * HexDigitsValue(s[..|s| - 1]) + HexValue(s[|s| - 1])
  }

  /** The longest prefix of s made of decimal digits. */
  function DigitPrefix(s: string): (r: string)
    ensures AllDigits(r) && |r| <= |s| && r == s[..|r|]
    ensures |r| < |s| ==> !IsDigit(s[|r|])
  {
    if s != [] && IsDigit(s[0]) then [s[0]] + DigitPrefix(s[1..]) else []
  }

  /** The longest prefix of s made of hexadecimal digits. */
  function HexPrefix(s: string): (r: string)
    ensures (forall i :: 0 <= i < |r| ==> IsHexDigit(r[i])) && |r| <= |s| && r == s[..|r|]
    ensures |r| < |s| ==> !IsHexDigit(s[|r|])
  {
    if s != [] && IsHexDigit(s[0]) then [s[0]] + HexPrefix(s[1..]) else []
  }

  /**
   * `parseInt(s)` with no radix argument, None standing for NaN: leading white space is
   * skipped, one sign is accepted, a "0x"/"0X" prefix selects base 16, and the longest run
   * of digits that follows is read; no digit at all gives NaN.
   */
  function ParseInt(s: string): Option<int> {
    var t := TrimStart(s);
    var sign := if t != [] && t[0] == '-' then -1 else 1;
    var body := if t != [] && (t[0] == '-' || t[0] == '+') then t[1..] else t;
    if |body| >= 2 && body[0] == '0' && (body[1] == 'x' || body[1] == 'X') then
      var h := HexPrefix(body[2..]);
      if h == [] then None else Some(sign * HexDigitsValue(h))
    else
      var d := DigitPrefix(body);
      if d == [] then None else Some(sign * DigitsValue(d))
  }

  /** On a non-empty string of decimal digits, parseInt reads exactly its value. */
  lemma ParseIntDigits(s: string)
    requires s != [] && AllDigits(s)
    ensures ParseInt(s) == Some(DigitsValue(s))
  {
    assert TrimStart(s) == s;
    assert DigitPrefix(s) == s by { DigitPrefixAll(s); }
  }

  lemma {:induction false} DigitPrefixAll(s: string)
    requires AllDigits(s)
    ensures DigitPrefix(s) == s
  {
    if s != [] {
      DigitPrefixAll(s[1..]);
    }
  }
}
