/** The handful of JavaScript string operations the pages rely on:
    `split` on a one-character separator followed by `pop`, ASCII case
    mapping for `toLowerCase`/`toUpperCase`, `charAt(0) + slice(1)`
    capitalisation, and the decimal rendering of a natural number that a
    template literal such as `${n}` performs. */
module Text {

  /** `s` ends with `suffix`. */
  predicate IsSuffix(suffix: string, s: string) {
    |suffix| <= |s| && s[|s| - |suffix|..] == suffix
  }

  /** Glues the parts back together with `sep` between neighbours
      (`Array.prototype.join` with a one-character separator). */
  function Join(parts: seq<string>, sep: char): string
    requires |parts| >= 1
  {
    if |parts| == 1 then parts[0] else parts[0] + [sep] + Join(parts[1..], sep)
  }

  /** The last element of a non-empty array, as `pop` returns it. */
  function Last<T>(xs: seq<T>): T
    requires |xs| >= 1
  {
    xs[|xs| - 1]
  }

  /** `s.split(sep)` for a one-character separator: the maximal runs of
      non-separator characters, including the empty runs before a leading,
      after a trailing, and between two adjacent separators. The result is
      never empty: `"".split(".")` is `[""]`. The contract says that the parts
      are separator-free and join back to `s`, and that the last part is the
      suffix of `s` after its last separator (or all of `s` if it has none). */
  function Split(s: string, sep: char): (parts: seq<string>)
    ensures SplitsAs(parts, s, sep)
    decreases |s|
  {
    if |s| == 0 then [""]
    else
      var rest := Split(s[1..], sep);
      if s[0] == sep then
        SplitAtSeparator(s, sep, rest);
        [""] + rest
      else
        SplitAtOther(s, sep, rest);
        [[s[0]] + rest[0]] + rest[1..]
  }

  /** `parts` is a split of `s` at `sep`: a non-empty list of
      separator-free parts that join back to `s`, whose last part is the
      suffix of `s` after its last separator (all of `s` if there is none). */
  predicate SplitsAs(parts: seq<string>, s: string, sep: char) {
    && |parts| >= 1
    && (forall i :: 0 <= i < |parts| ==> sep !in parts[i])
    && Join(parts, sep) == s
    && IsSuffix(Last(parts), s)
    && (|Last(parts)| < |s| ==> s[|s| - |Last(parts)| - 1] == sep)
  }

  /** A leading separator closes an empty first part. */
  lemma SplitAtSeparator(s: string, sep: char, rest: seq<string>)
    requires |s| >= 1 && s[0] == sep && SplitsAs(rest, s[1..], sep)
    ensures SplitsAs([""] + rest, s, sep)
  {
    var parts := [""] + rest;
    assert parts[1..] == rest;
    assert Last(parts) == Last(rest);
    assert s == [sep] + s[1..];
    SuffixOfTail(Last(rest), s);
  }

  /** A leading ordinary character joins the first part. */
  lemma SplitAtOther(s: string, sep: char, rest: seq<string>)
    requires |s| >= 1 && s[0] != sep && SplitsAs(rest, s[1..], sep)
    ensures SplitsAs([[s[0]] + rest[0]] + rest[1..], s, sep)
  {
    var parts := [[s[0]] + rest[0]] + rest[1..];
    JoinHead(rest, s[0], sep);
    assert s == [s[0]] + s[1..];
    if |rest| == 1 {
      assert Last(parts) == s;
    } else {
      assert Last(parts) == Last(rest);
      SuffixOfTail(Last(rest), s);
    }
    forall i | 0 <= i < |parts|
      ensures sep !in parts[i]
    {
      if i > 0 {
        assert parts[i] == rest[i];
      }
    }
  }

  /** A suffix of the tail of `s` is a suffix of `s`, preceded by the same
      character in both. */
  lemma SuffixOfTail(suffix: string, s: string)
    requires |s| >= 1 && IsSuffix(suffix, s[1..])
    ensures IsSuffix(suffix, s)
    ensures |suffix| < |s| - 1 ==> s[|s| - |suffix| - 1] == s[1..][|s| - 1 - |suffix| - 1]
  {
    assert s[|s| - |suffix|..] == s[1..][|s| - 1 - |suffix|..];
  }

  /** Prepending a character to the first part prepends it to the join. */
  lemma JoinHead(parts: seq<string>, c: char, sep: char)
    requires |parts| >= 1
    ensures Join([[c] + parts[0]] + parts[1..], sep) == [c] + Join(parts, sep)
  {
    var glued := [[c] + parts[0]] + parts[1..];
    if |parts| > 1 {
      assert glued[1..] == parts[1..];
    }
  }

  /** The segment `split(sep).pop()` yields is the separator-free tail of
      `s` that follows its last separator, or all of `s` when it has none. */
  lemma LastSegmentIsTail(s: string, sep: char)
    ensures var last := Last(Split(s, sep));
      && |last| <= |s| && last == s[|s| - |last|..] && sep !in last
      && (|last| < |s| ==> s[|s| - |last| - 1] == sep)
  {
    var parts := Split(s, sep);
    assert Last(parts) == parts[|parts| - 1];
  }

  /** The segment `split(sep).pop()` yields is exactly what follows the last
      separator: for a name `p + sep + q` whose tail `q` is separator-free,
      the last segment is `q`, whatever `p` holds. */
  lemma LastSegmentAfterSeparator(p: string, q: string, sep: char)
    requires sep !in q
    ensures Last(Split(p + [sep] + q, sep)) == q
  {
    var s := p + [sep] + q;
    assert s[|p|] == sep;
    assert s[|s| - |q|..] == q;
  }

  /** A string without the separator splits into itself alone. */
  lemma LastSegmentWithoutSeparator(s: string, sep: char)
    requires sep !in s
    ensures Last(Split(s, sep)) == s
  {
    var last := Last(Split(s, sep));
    if |last| < |s| {
      assert false;
    }
  }

  /** `toLowerCase` on one character, restricted to ASCII letters. */
  function LowerChar(c: char): char {
    if 'A' <= c <= 'Z' then (c as int + 32) as char else c
  }

  /** `toUpperCase` on one character, restricted to ASCII letters. */
  function UpperChar(c: char): char {
    if 'a' <= c <= 'z' then (c as int - 32) as char else c
  }

  /** `s.toLowerCase()`, character by character. */
  function Lower(s: string): (r: string)
    ensures |r| == |s|
    ensures forall i :: 0 <= i < |s| ==> r[i] == LowerChar(s[i])
  {
    seq(|s|, i requires 0 <= i < |s| => LowerChar(s[i]))
  }


  /** `s.charAt(0).toUpperCase() + s.slice(1)`: the first character
      upper-cased, the rest untouched; the empty string stays empty. */
  function Capitalize(s: string): (r: string)
    ensures |r| == |s|
    ensures |s| > 0 ==> r[0] == UpperChar(s[0]) && r[1..] == s[1..]
  {
    if |s| == 0 then "" else [UpperChar(s[0])] + s[1..]
  }


  predicate IsDigit(c: char) {
    '0' <= c <= '9'
  }

  predicate AllDigits(s: string) {
    forall i :: 0 <= i < |s| ==> IsDigit(s[i])
  }

  function DigitChar(d: nat): (c: char)
    requires d < 10
    ensures IsDigit(c)
  {
    ('0' as int + d) as char
  }

  /** The number a string of decimal digits denotes, most significant
      digit first. */
  function DecimalValue(s: string): nat
    requires AllDigits(s)
  {
    if |s| == 0 then 0
    else 10 * DecimalValue(s[..|s| - 1]) + (s[|s| - 1] as int - '0' as int)
  }

  /** The decimal numeral of `n` that `${n}` produces: at least one digit,
      no leading zero unless `n` is zero, and it reads back as `n`. */
  function DecimalString(n: nat): (r: string)
    ensures |r| >= 1
    ensures AllDigits(r)
    ensures DecimalValue(r) == n
    ensures r[0] == '0' ==> n == 0
    decreases n
  {
    if n < 10 then [DigitChar(n)]
    else
      var front := DecimalString(n / 10);
      var r := front + [DigitChar(n % 10)];
      assert r[..|r| - 1] == front;
      r
  }
}
