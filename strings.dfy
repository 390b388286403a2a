/**
 * String building blocks the collector uses when it turns events into store
 * keys and field values: `std::to_string` of a non-negative integer, and the
 * separator-joined composite keys of the state database, with the parsers
 * that invert them.
 */
module Strings {

  predicate IsDigit(ch: char) {
    '0' <= ch <= '9'
  }

  predicate AllDigits(s: string) {
    forall i :: 0 <= i < |s| ==> IsDigit(s[i])
  }

  function DigitChar(d: nat): (ch: char)
    requires d < 10
  {
    ('0' as int + d) as char
  }

  function DigitValue(ch: char): nat
    requires IsDigit(ch)
  {
    ch as int - '0' as int
  }

  /** The decimal text `std::to_string` produces for a non-negative value. */
  function Decimal(n: nat): (s: string)
    ensures |s| > 0 && AllDigits(s)
    ensures |s| > 1 ==> s[0] != '0'
    decreases n
  {
    if n < 10 then [DigitChar(n)] else Decimal(n / 10) + [DigitChar(n % 10)]
  }

  /** Reads a string of decimal digits back as a number. */
  function ParseDecimal(s: string): nat
    requires AllDigits(s)
    decreases |s|
  {
    if s == [] then 0 else 10 * ParseDecimal(s[..|s| - 1]) + DigitValue(s[|s| - 1])
  }

  /** Decimal text reads back as the number it was printed from. */
  lemma {:induction false} DecimalRoundTrip(n: nat)
    ensures ParseDecimal(Decimal(n)) == n
    decreases n
  {
    if n >= 10 {
      DecimalRoundTrip(n / 10);
      var s := Decimal(n);
      assert s[..|s| - 1] == Decimal(n / 10);
    }
  }

  /** Position of the last occurrence of `c` in `s`, or -1 when there is none. */
  function LastIndexOf(s: string, c: char): (r: int)
    ensures -1 <= r < |s|
    ensures r >= 0 ==> s[r] == c && c !in s[r + 1..]
    ensures r < 0 ==> c !in s
    decreases |s|
  {
    if s == [] then -1
    else if s[|s| - 1] == c then |s| - 1
    else LastIndexOf(s[..|s| - 1], c)
  }

  /** The last `c` of `a + [c] + b` is the one between `a` and `b` when `b` has none. */
  lemma {:induction false} LastIndexOfAt(a: string, c: char, b: string)
    requires c !in b
    ensures LastIndexOf(a + [c] + b, c) == |a|
    decreases |b|
  {
    var s := a + [c] + b;
    if b != [] {
      assert s[|s| - 1] == b[|b| - 1];
      assert s[..|s| - 1] == a + [c] + b[..|b| - 1];
      LastIndexOfAt(a, c, b[..|b| - 1]);
    }
  }

  /** The key parts separated by `sep` (the composite key of a table row). */
  function JoinKey(parts: seq<string>, sep: string): string
    requires |parts| > 0
    decreases |parts|
  {
    if |parts| == 1 then parts[0]
    else JoinKey(parts[..|parts| - 1], sep) + sep + parts[|parts| - 1]
  }

  /** Cuts `s` at every occurrence of the separator character `c`. */
  function Split(s: string, c: char): (parts: seq<string>)
    ensures |parts| > 0
    decreases |s|
  {
    var i := LastIndexOf(s, c);
    if i < 0 then [s] else Split(s[..i], c) + [s[i + 1..]]
  }

  /** A key joined with a one-character separator splits back into its parts
      when no part contains that character. */
  lemma {:induction false} SplitJoinKey(parts: seq<string>, c: char)
    requires |parts| > 0
    requires forall k :: 0 <= k < |parts| ==> c !in parts[k]
    ensures Split(JoinKey(parts, [c]), c) == parts
    decreases |parts|
  {
    if |parts| == 1 {
      assert LastIndexOf(parts[0], c) < 0;
    } else {
      var init := parts[..|parts| - 1];
      var last := parts[|parts| - 1];
      var a := JoinKey(init, [c]);
      var s := a + [c] + last;
      assert JoinKey(parts, [c]) == s;
      LastIndexOfAt(a, c, last);
      assert s[..|a|] == a;
      assert s[|a| + 1..] == last;
      SplitJoinKey(init, c);
      assert init + [last] == parts;
    }
  }
}
