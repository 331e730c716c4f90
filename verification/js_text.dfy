/** The slice of JavaScript's string and number built-ins that the task store
    relies on: `startsWith`, `split` / `join` on a one-character separator,
    `parseInt(_, 10)`, `Number.prototype.toString()` on non-negative integers
    and `padStart`. Strings are sequences of UTF-16 code units in JavaScript;
    here they are `seq<char>`, which only matters outside the Basic
    Multilingual Plane and nowhere below. */
module JsText {
  import opened Wrappers

  // ---------------------------------------------------------------------------
  // Prefixes

  /** `s.startsWith(prefix)` */
  predicate StartsWith(s: string, prefix: string) {
    prefix <= s
  }

  /** `s.endsWith(suffix)` */
  predicate EndsWith(s: string, suffix: string) {
    |suffix| <= |s| && s[|s| - |suffix|..] == suffix
  }

  // ---------------------------------------------------------------------------
  // Decimal digits

  predicate IsDigit(c: char) {
    '0' <= c <= '9'
  }

  predicate AllDigits(s: string) {
    forall i :: 0 <= i < |s| ==> IsDigit(s[i])
  }

  function DigitValue(c: char): (d: nat)
    requires IsDigit(c)
    ensures d < 10
  {
    c as int - '0' as int
  }

  function DigitChar(d: nat): (c: char)
    requires d < 10
    ensures IsDigit(c) && DigitValue(c) == d
  {
    (d + '0' as int) as char
  }

  /** Reads decimal digits from the front of `s`, most significant first,
      onto the accumulator `acc`, stopping at the first character that is
      not a digit. */
  function ReadDigits(s: string, acc: nat): nat {
    if |s| > 0 && IsDigit(s[0]) then ReadDigits(s[1..], 10 * acc + DigitValue(s[0])) else acc
  }

  /** The number a run of decimal digits denotes; leading zeros are allowed
      and the empty run denotes 0. */
  function DigitsValue(s: string): nat {
    ReadDigits(s, 0)
  }

  /** Appending a digit multiplies what was read so far by ten and adds it. */
  lemma {:induction false} ReadDigitsSnoc(s: string, c: char, acc: nat)
    requires AllDigits(s) && IsDigit(c)
    ensures ReadDigits(s + [c], acc) == 10 * ReadDigits(s, acc) + DigitValue(c)
    decreases |s|
  {
    if |s| == 0 {
      assert s + [c] == [c];
      assert [c][1..] == [];
    } else {
      assert (s + [c])[1..] == s[1..] + [c];
      ReadDigitsSnoc(s[1..], c, 10 * acc + DigitValue(s[0]));
    }
  }

  /** `n.toString()` for a non-negative integer: its decimal digits, without
      leading zeros. */
  function ToDecimal(n: nat): (s: string)
    ensures 1 <= |s| && AllDigits(s)
    ensures DigitsValue(s) == n
    ensures n > 0 ==> s[0] != '0'
    ensures n == 0 ==> s == "0"
    decreases n
  {
    if n < 10 then
      var s := [DigitChar(n)];
      assert s[1..] == [];
      assert ReadDigits([], n) == n;
      s
    else
      var high := ToDecimal(n / 10);
      var c := DigitChar(n % 10);
      ReadDigitsSnoc(high, c, 0);
      assert (high + [c])[0] == high[0];
      high + [c]
  }

  /** `k` copies of `c`. */
  function Repeat(c: char, k: nat): (r: string)
    ensures |r| == k
    ensures forall i :: 0 <= i < k ==> r[i] == c
  {
    if k == 0 then [] else [c] + Repeat(c, k - 1)
  }

  /** `s.padStart(width, fill)` with a one-character fill string: `fill` is
      repeated on the left up to `width` characters; a longer `s` is returned
      as it is, never cut. */
  function PadStart(s: string, width: nat, fill: char): (r: string)
    ensures |r| == if |s| < width then width else |s|
    ensures EndsWith(r, s)
    ensures forall i :: 0 <= i < |r| - |s| ==> r[i] == fill
  {
    if |s| >= width then s else Repeat(fill, width - |s|) + s
  }

  // ---------------------------------------------------------------------------
  // parseInt(s, 10)

  /** ECMAScript WhiteSpace and LineTerminator code points, which `parseInt`
      skips before the number. */
  predicate IsJsWhitespace(c: char) {
    if c <= ' ' then c == ' ' || '\t' <= c <= '\r'
    else if c < '\U{A0}' then false
    else
      || c == '\U{A0}' || c == '\U{1680}' || ('\U{2000}' <= c <= '\U{200A}')
      || c == '\U{2028}' || c == '\U{2029}' || c == '\U{202F}' || c == '\U{205F}'
      || c == '\U{3000}' || c == '\U{FEFF}'
  }

  /** How many white-space characters `s` starts with. */
  function LeadingSpaces(s: string): (k: nat)
    ensures k <= |s|
  {
    if |s| > 0 && IsJsWhitespace(s[0]) then 1 + LeadingSpaces(s[1..]) else 0
  }

  /** `parseInt(s, 10)`: skip leading white space, read an optional sign, then
      the longest run of decimal digits; `None` stands for `NaN` (no digit
      there). Everything after the digits is ignored. */
  function ParseInt(s: string): Option<int> {
    var t := s[LeadingSpaces(s)..];
    var unsigned := if |t| > 0 && (t[0] == '-' || t[0] == '+') then t[1..] else t;
    if |unsigned| == 0 || !IsDigit(unsigned[0]) then None
    else
      var magnitude: int := ReadDigits(unsigned, 0);
      if t[0] == '-' then Some(-magnitude) else Some(magnitude)
  }

  /** Reading stops at the first character that is not a digit. */
  lemma {:induction false} ReadDigitsStops(d: string, rest: string, acc: nat)
    requires AllDigits(d)
    requires |rest| == 0 || !IsDigit(rest[0])
    ensures ReadDigits(d + rest, acc) == ReadDigits(d, acc)
    decreases |d|
  {
    if |d| == 0 {
      assert d + rest == rest;
    } else {
      assert (d + rest)[1..] == d[1..] + rest;
      ReadDigitsStops(d[1..], rest, 10 * acc + DigitValue(d[0]));
    }
  }

  /** `parseInt` reads a leading run of digits and stops at the first
      character that is not one (`parseInt("12ab", 10) === 12`). */
  lemma ParseIntReadsLeadingDigits(d: string, rest: string)
    requires 0 < |d| && AllDigits(d)
    requires |rest| == 0 || !IsDigit(rest[0])
    ensures ParseInt(d + rest) == Some(DigitsValue(d))
  {
    var s := d + rest;
    assert s[0] == d[0] && IsDigit(s[0]);
    assert LeadingSpaces(s) == 0;
    assert s[0..] == s;
    ReadDigitsStops(d, rest, 0);
  }

  /** Leading zeros do not change the value of a run of digits. */
  lemma {:induction false} ZerosDoNotCount(k: nat, s: string)
    ensures DigitsValue(Repeat('0', k) + s) == DigitsValue(s)
  {
    if k > 0 {
      var z := Repeat('0', k);
      assert z == ['0'] + Repeat('0', k - 1);
      assert (z + s)[0] == '0';
      assert (z + s)[1..] == Repeat('0', k - 1) + s;
      ZerosDoNotCount(k - 1, s);
    } else {
      assert Repeat('0', k) + s == s;
    }
  }

  /** Reading back a zero-padded decimal rendering gives the number:
      `parseInt(String(n).padStart(w, '0'), 10) === n`. */
  lemma ParsePaddedDecimal(n: nat, width: nat)
    ensures AllDigits(PadStart(ToDecimal(n), width, '0'))
    ensures ParseInt(PadStart(ToDecimal(n), width, '0')) == Some(n)
  {
    var d := ToDecimal(n);
    var p := PadStart(d, width, '0');
    var k := |p| - |d|;
    assert p == Repeat('0', k) + d;
    ZerosDoNotCount(k, d);
    assert p + [] == p;
    ParseIntReadsLeadingDigits(p, []);
  }

  // ---------------------------------------------------------------------------
  // split / join on one character

  /** `s.indexOf(c)` for a character known to occur. */
  function IndexOf(s: string, c: char): (i: nat)
    requires c in s
    ensures i < |s| && s[i] == c && c !in s[..i]
  {
    if s[0] == c then 0
    else
      var j := IndexOf(s[1..], c);
      assert s[..j + 1] == [s[0]] + s[1..][..j];
      j + 1
  }

  /** `parts.join(sep)` for a one-character separator. */
  function Join(parts: seq<string>, sep: char): string {
    if |parts| == 0 then []
    else if |parts| == 1 then parts[0]
    else parts[0] + [sep] + Join(parts[1..], sep)
  }

  /** `s.split(sep)` for a one-character separator: the pieces between
      consecutive occurrences of `sep`, from left to right. There is always at
      least one piece, none contains `sep`, and joining them gives `s` back. */
  function Split(s: string, sep: char): (parts: seq<string>)
    ensures |parts| >= 1
    ensures forall i :: 0 <= i < |parts| ==> sep !in parts[i]
    ensures Join(parts, sep) == s
    decreases |s|
  {
    if sep in s then
      var i := IndexOf(s, sep);
      var rest := Split(s[i + 1..], sep);
      var parts := [s[..i]] + rest;
      assert parts[1..] == rest;
      assert s == s[..i] + [sep] + s[i + 1..];
      parts
    else
      [s]
  }

  /** Splitting at the first separator: everything before it is the first
      piece, and the rest is split on its own. */
  lemma SplitAtFirst(a: string, sep: char, b: string)
    requires sep !in a
    ensures Split(a + [sep] + b, sep) == [a] + Split(b, sep)
  {
    var s := a + [sep] + b;
    assert s[|a|] == sep;
    var i := IndexOf(s, sep);
    assert s[..i] == a;
    assert s[i + 1..] == b;
  }

  /** `split` undoes `join` when no piece contains the separator. */
  lemma {:induction false} SplitJoin(parts: seq<string>, sep: char)
    requires |parts| >= 1
    requires forall i :: 0 <= i < |parts| ==> sep !in parts[i]
    ensures Split(Join(parts, sep), sep) == parts
    decreases |parts|
  {
    if |parts| > 1 {
      SplitAtFirst(parts[0], sep, Join(parts[1..], sep));
      SplitJoin(parts[1..], sep);
      assert parts == [parts[0]] + parts[1..];
    }
  }

  /** The part of `s` before its first `sep`, or all of `s`. */
  function BeforeFirst(s: string, sep: char): (r: string)
    ensures r <= s && sep !in r
    ensures |r| < |s| ==> s[|r|] == sep
  {
    if sep in s then s[..IndexOf(s, sep)] else s
  }

  /** The first piece of a split is what precedes the first separator. */
  lemma SplitFirstPiece(s: string, sep: char)
    ensures Split(s, sep)[0] == BeforeFirst(s, sep)
  {
  }

  /** What precedes the first separator of `a + sep + b` is `a`, when `a`
      has no separator of its own. */
  lemma BeforeFirstAt(a: string, sep: char, b: string)
    requires sep !in a
    ensures BeforeFirst(a + [sep] + b, sep) == a
  {
    SplitAtFirst(a, sep, b);
    SplitFirstPiece(a + [sep] + b, sep);
  }

  /** A decimal rendering holds no character other than digits. */
  lemma DecimalLacks(n: nat, c: char)
    requires !IsDigit(c)
    ensures c !in ToDecimal(n)
  {
  }
}
