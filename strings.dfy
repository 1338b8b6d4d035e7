/**
 * The JavaScript string operations the modelled code relies on: `indexOf` of one
 * character, `split` on one character, `endsWith`, `slice` with its clamping of
 * negative and out-of-range bounds, and decimal `toString` of an integer.
 */
module Strings {
  import opened Wrappers

  /** `s.indexOf(c)`, with `None` for -1. */
  function IndexOf(s: string, c: char): (r: Option<nat>)
    ensures r.None? <==> c !in s
    ensures r.Some? ==> r.value < |s| && s[r.value] == c && c !in s[..r.value]
  {
    if s == [] then None
    else if s[0] == c then Some(0)
    else match IndexOf(s[1..], c)
      case None => None
      case Some(i) =>
        assert s[..i + 1] == [s[0]] + s[1..][..i];
        Some(i + 1)
  }

  /** `s.split(sep)` for a one-character separator: the pieces between separators, in order. */
  function Split(s: string, sep: char): (r: seq<string>)
    ensures |r| >= 1
    ensures forall k :: 0 <= k < |r| ==> sep !in r[k]
    decreases |s|
  {
    match IndexOf(s, sep)
    case None => [s]
    case Some(i) => [s[..i]] + Split(s[i + 1..], sep)
  }

  /** The inverse of `Split`: the pieces joined with the separator. */
  function Join(parts: seq<string>, sep: char): string
    requires |parts| >= 1
  {
    if |parts| == 1 then parts[0] else parts[0] + [sep] + Join(parts[1..], sep)
  }

  lemma {:induction false} SplitJoin(s: string, sep: char)
    ensures Join(Split(s, sep), sep) == s
    decreases |s|
  {
    var r := IndexOf(s, sep);
    if r.Some? {
      var i := r.value;
      var rest := Split(s[i + 1..], sep);
      SplitJoin(s[i + 1..], sep);
      assert Split(s, sep) == [s[..i]] + rest;
      assert ([s[..i]] + rest)[1..] == rest;
      assert Join(Split(s, sep), sep) == s[..i] + [sep] + s[i + 1..];
      assert s == s[..i] + [sep] + s[i + 1..];
    }
  }

  /** Splitting text without the separator in its first piece isolates that piece. */
  lemma {:induction false} SplitFirstPiece(a: string, rest: string, sep: char)
    requires sep !in a
    ensures Split(a + [sep] + rest, sep) == [a] + Split(rest, sep)
  {
    var b := [sep] + rest;
    var s := a + b;
    assert a + [sep] + rest == s;
    var i := IndexOfAfterPrefix(a, b, sep);
    assert s[..i] == a;
    assert s[i + 1..] == rest;
    assert Split(s, sep) == [s[..i]] + Split(s[i + 1..], sep);
  }

  lemma IndexOfAfterPrefix(a: string, b: string, c: char) returns (i: nat)
    requires c !in a && |b| > 0 && b[0] == c
    ensures IndexOf(a + b, c) == Some(|a|) && i == |a|
  {
    i := |a|;
    assert (a + b)[|a|] == c;
    assert (a + b)[..|a|] == a;
  }

  /** The first occurrence of `c` is at `i` when `s[i]` is `c` and nothing before it is. */
  lemma IndexOfAt(s: string, c: char, i: nat)
    requires i < |s| && s[i] == c && forall k :: 0 <= k < i ==> s[k] != c
    ensures IndexOf(s, c) == Some(i)
  {
    assert s[..i + 1][i] == c;
  }

  lemma SplitWithoutSeparator(s: string, sep: char)
    requires sep !in s
    ensures Split(s, sep) == [s]
  {
  }

  predicate EndsWith(s: string, suffix: string) {
    |suffix| <= |s| && s[|s| - |suffix|..] == suffix
  }

  /** JavaScript `s.slice(start, end)`: a negative bound counts from the end, bounds are clamped, and a reversed pair gives "". */
  function Slice(s: string, start: int, end: int): (r: string)
    ensures |r| <= |s|
  {
    var b := Clamp(if start < 0 then |s| + start else start, |s|);
    var e := Clamp(if end < 0 then |s| + end else end, |s|);
    if b < e then s[b..e] else ""
  }

  function Clamp(i: int, n: nat): (r: nat)
    ensures r <= n
  {
    if i < 0 then 0 else if i > n then n else i
  }

  lemma SliceInBounds(s: string, start: nat, end: nat)
    requires start <= end <= |s|
    ensures Slice(s, start, end) == s[start..end]
  {
  }

  // ---------------------------------------------------------------------------
  // Decimal text of integers (JavaScript `Number.prototype.toString` on integers).

  function DigitChar(d: nat): (c: char)
    requires d < 10
    ensures '0' <= c <= '9'
  {
    ('0' as int + d) as char
  }

  function DigitValue(c: char): (d: nat)
    requires '0' <= c <= '9'
    ensures d < 10 && DigitChar(d) == c
  {
    c as int - '0' as int
  }

  function NatToString(n: nat): (s: string)
    ensures |s| >= 1
    ensures forall k :: 0 <= k < |s| ==> '0' <= s[k] <= '9'
  {
    if n < 10 then [DigitChar(n)] else NatToString(n / 10) + [DigitChar(n % 10)]
  }

  function IntToString(i: int): (s: string)
    ensures |s| >= 1
  {
    if i < 0 then "-" + NatToString(-i) else NatToString(i)
  }

  /** Reads back a string of decimal digits. */
  function ParseDigits(s: string): nat
    requires forall k :: 0 <= k < |s| ==> '0' <= s[k] <= '9'
  {
    if s == [] then 0 else 10 * ParseDigits(s[..|s| - 1]) + DigitValue(s[|s| - 1])
  }

  lemma {:induction false} NatToStringRoundTrip(n: nat)
    ensures ParseDigits(NatToString(n)) == n
  {
    if n >= 10 {
      NatToStringRoundTrip(n / 10);
      var s := NatToString(n);
      assert s[..|s| - 1] == NatToString(n / 10);
    } else {
      assert NatToString(n)[..0] == [];
    }
  }

  /** Distinct integers have distinct decimal texts. */
  lemma IntToStringInjective(i: int, j: int)
    requires IntToString(i) == IntToString(j)
    ensures i == j
  {
    SignVisible(i);
    SignVisible(j);
    var m: nat := if i < 0 then -i else i;
    var n: nat := if j < 0 then -j else j;
    assert (i < 0) == (j < 0);
    assert NatToString(m) == NatToString(n);
    NatToStringRoundTrip(m);
    NatToStringRoundTrip(n);
  }

  lemma SignVisible(i: int)
    ensures (IntToString(i)[0] == '-') <==> i < 0
    ensures i < 0 ==> IntToString(i)[1..] == NatToString(-i)
    ensures i >= 0 ==> IntToString(i) == NatToString(i)
  {
    if i >= 0 {
      var s := NatToString(i);
      assert '0' <= s[0] <= '9';
    }
  }
}
