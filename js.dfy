/**
 * The few JavaScript built-ins the gateway's rules are written in: optional
 * and fallible values, thrown errors with an optional HTTP status, the `\s`
 * character class, ASCII case folding as a case-insensitive regular
 * expression applies it, `String.prototype.split` on a one-character
 * separator, `parseInt` and the decimal rendering of an integer.
 */
module Js {

  datatype Option<+T> = None | Some(value: T)

  datatype Result<+T, +E> = Ok(value: T) | Err(error: E)

  /** A thrown `Error`: its message and, when the thrower set one, `http_status`. */
  datatype JsError = JsError(message: string, httpStatus: Option<int>)

  /** The text JavaScript's `+` produces for a string that may be `null`. */
  function NullableText(s: Option<string>): (r: string)
    ensures s.Some? ==> r == s.value
    ensures s.None? ==> r == "null"
  {
    if s.Some? then s.value else "null"
  }

  // ---------------------------------------------------------------------------
  // Characters

  /** A line terminator: what `.` in a regular expression does not match. */
  predicate IsLineTerminator(c: char) {
    c == '\n' || c == '\r' || c == '\U{2028}' || c == '\U{2029}'
  }

  /** The characters of JavaScript's `\s` class (white space and line terminators). */
  predicate IsSpace(c: char) {
    || c == '\t' || c == '\U{000B}' || c == '\U{000C}' || c == ' '
    || c == '\U{00A0}' || c == '\U{1680}' || ('\U{2000}' <= c <= '\U{200A}')
    || c == '\U{202F}' || c == '\U{205F}' || c == '\U{3000}' || c == '\U{FEFF}'
    || IsLineTerminator(c)
  }

  /** Case folding as a non-Unicode `/i` regular expression applies it to an ASCII pattern. */
  function LowerChar(c: char): (r: char)
    ensures 'A' <= c <= 'Z' ==> r as int == c as int + 32
    ensures !('A' <= c <= 'Z') ==> r == c
  {
    if 'A' <= c <= 'Z' then (c as int + 32) as char else c
  }

  function Lower(s: string): (r: string)
    ensures |r| == |s|
    ensures forall i :: 0 <= i < |s| ==> r[i] == LowerChar(s[i])
  {
    seq(|s|, i requires 0 <= i < |s| => LowerChar(s[i]))
  }

  /** `w` (a lower-case ASCII word) occurs case-insensitively in `s` at index `i`. */
  predicate MatchesAt(s: string, i: int, w: string) {
    0 <= i && i + |w| <= |s| && Lower(s[i..i + |w|]) == w
  }

  /** `s` with its leading `\s` characters removed, as a greedy `^\s*` consumes them. */
  function TrimLeadingSpace(s: string): (r: string)
    ensures |r| <= |s| && r == s[|s| - |r|..]
    ensures forall j :: 0 <= j < |s| - |r| ==> IsSpace(s[j])
    ensures r != [] ==> !IsSpace(r[0])
  {
    if s != [] && IsSpace(s[0]) then
      var r := TrimLeadingSpace(s[1..]);
      assert s[1..][|s| - 1 - |r|..] == s[|s| - |r|..];
      assert forall j :: 1 <= j < |s| - |r| ==> s[j] == s[1..][j - 1];
      r
    else s
  }

  /** A word that starts with a letter does not start with white space, in any case. */
  lemma WordStartNotSpace(s: string, i: int, w: string)
    requires MatchesAt(s, i, w) && w != [] && 'a' <= w[0] <= 'z'
    ensures !IsSpace(s[i])
  {
    assert Lower(s[i..i + |w|])[0] == LowerChar(s[i]);
  }

  /** Trimming stops at the first character that is not white space. */
  lemma TrimmedAt(s: string, k: nat)
    requires k < |s| && !IsSpace(s[k])
    requires forall j :: 0 <= j < k ==> IsSpace(s[j])
    ensures TrimLeadingSpace(s) == s[k..]
  {
    var t := TrimLeadingSpace(s);
    var n := |s| - |t|;
    assert n < |s| ==> t[0] == s[n];
    assert n == k;
  }

  // ---------------------------------------------------------------------------
  // split(',') and its inverse

  /** The index of the first `sep` in `s`, or `|s|` when there is none. */
  function IndexOf(s: string, sep: char): (i: nat)
    ensures i <= |s|
    ensures i < |s| ==> s[i] == sep
    ensures sep !in s[..i]
  {
    if s == [] || s[0] == sep then 0
    else
      var i := 1 + IndexOf(s[1..], sep);
      assert s[..i] == [s[0]] + s[1..][..i - 1];
      i
  }

  /** `s.split(sep)` for a one-character separator: never empty, `"".split(",")` is `[""]`. */
  function Split(s: string, sep: char): (r: seq<string>)
    ensures |r| >= 1
    decreases |s|
  {
    var i := IndexOf(s, sep);
    if i == |s| then [s] else [s[..i]] + Split(s[i + 1..], sep)
  }

  /** No piece holds the separator. */
  lemma {:induction false} SplitPieces(s: string, sep: char)
    ensures forall k :: 0 <= k < |Split(s, sep)| ==> sep !in Split(s, sep)[k]
    decreases |s|
  {
    var i := IndexOf(s, sep);
    if i < |s| {
      SplitPieces(s[i + 1..], sep);
    } else {
      assert s[..i] == s;
    }
  }

  /** `parts.join(sep)`. */
  function Join(parts: seq<string>, sep: char): string
    requires |parts| >= 1
  {
    if |parts| == 1 then parts[0] else parts[0] + [sep] + Join(parts[1..], sep)
  }

  lemma IndexOfAbsent(s: string, sep: char)
    requires sep !in s
    ensures IndexOf(s, sep) == |s|
  {
    if s != [] {
      assert s[0] in s;
      IndexOfAbsent(s[1..], sep);
    }
  }

  lemma IndexOfAppend(a: string, b: string, sep: char)
    requires sep !in a
    ensures IndexOf(a + [sep] + b, sep) == |a|
  {
    if a != [] {
      assert (a + [sep] + b)[1..] == a[1..] + [sep] + b;
      IndexOfAppend(a[1..], b, sep);
    }
  }

  lemma IndexOfPrefix(a: string, t: string, sep: char)
    requires sep in a
    ensures IndexOf(a + t, sep) == IndexOf(a, sep)
  {
    if a[0] != sep {
      assert (a + t)[1..] == a[1..] + t;
      IndexOfPrefix(a[1..], t, sep);
    }
  }

  /** Splitting `a + sep + b` splits `a` and `b` separately and concatenates the pieces. */
  lemma {:induction false} SplitAppend(a: string, b: string, sep: char)
    ensures Split(a + [sep] + b, sep) == Split(a, sep) + Split(b, sep)
    decreases |a|
  {
    if sep !in a {
      SplitAppendNoSeparator(a, b, sep);
    } else {
      var i := IndexOf(a, sep);
      assert i < |a| by { IndexOfPresent(a, sep); }
      var rest := a[i + 1..];
      calc {
        Split(a + [sep] + b, sep);
        == { SplitAppendFirst(a, b, sep); }
        [a[..i]] + Split(rest + [sep] + b, sep);
        == { SplitAppend(rest, b, sep); }
        [a[..i]] + (Split(rest, sep) + Split(b, sep));
        ([a[..i]] + Split(rest, sep)) + Split(b, sep);
        == { SplitAtFirst(a, sep); }
        Split(a, sep) + Split(b, sep);
      }
    }
  }

  lemma SplitAtFirst(s: string, sep: char)
    requires sep in s
    ensures IndexOf(s, sep) < |s|
    ensures Split(s, sep) == [s[..IndexOf(s, sep)]] + Split(s[IndexOf(s, sep) + 1..], sep)
  {
    assert s[..|s|] == s;
  }

  lemma SplitAppendNoSeparator(a: string, b: string, sep: char)
    requires sep !in a
    ensures Split(a + [sep] + b, sep) == Split(a, sep) + Split(b, sep)
  {
    var s := a + [sep] + b;
    IndexOfAppend(a, b, sep);
    assert s[..|a|] == a && s[|a| + 1..] == b;
    SplitNoSeparator(a, sep);
  }

  lemma SplitAppendFirst(a: string, b: string, sep: char)
    requires sep in a
    ensures IndexOf(a, sep) < |a|
    ensures Split(a + [sep] + b, sep) == [a[..IndexOf(a, sep)]] + Split(a[IndexOf(a, sep) + 1..] + [sep] + b, sep)
  {
    IndexOfPresent(a, sep);
    var i := IndexOf(a, sep);
    var s := a + [sep] + b;
    assert IndexOf(s, sep) == i by {
      assert s == a + ([sep] + b);
      IndexOfPrefix(a, [sep] + b, sep);
    }
    assert s[..i] == a[..i];
    assert s[i + 1..] == a[i + 1..] + [sep] + b;
    assert s[i] == sep;
    SplitAtFirst(s, sep);
  }

  lemma IndexOfPresent(s: string, sep: char)
    requires sep in s
    ensures IndexOf(s, sep) < |s|
  {
    assert s[..|s|] == s;
  }

  /** Joining the pieces gives the text back. */
  lemma {:induction false} JoinSplit(s: string, sep: char)
    ensures Join(Split(s, sep), sep) == s
    decreases |s|
  {
    var i := IndexOf(s, sep);
    var parts := Split(s, sep);
    if i < |s| {
      var rest := s[i + 1..];
      assert parts == [s[..i]] + Split(rest, sep);
      assert parts[1..] == Split(rest, sep);
      JoinSplit(rest, sep);
      assert Join(parts, sep) == s[..i] + [sep] + rest;
      assert s == s[..i] + [sep] + rest;
    } else {
      assert parts == [s];
    }
  }

  lemma {:induction false} SplitNoSeparator(s: string, sep: char)
    requires sep !in s
    ensures Split(s, sep) == [s]
  {
    IndexOfAbsent(s, sep);
    assert s[..|s|] == s;
  }

  /** Splitting a join of separator-free pieces gives the pieces back. */
  lemma {:induction false} SplitJoin(parts: seq<string>, sep: char)
    requires |parts| >= 1
    requires forall k :: 0 <= k < |parts| ==> sep !in parts[k]
    ensures Split(Join(parts, sep), sep) == parts
  {
    if |parts| == 1 {
      SplitNoSeparator(parts[0], sep);
    } else {
      var tail := Join(parts[1..], sep);
      assert Join(parts, sep) == parts[0] + [sep] + tail;
      SplitJoin(parts[1..], sep);
      SplitAppend(parts[0], tail, sep);
      SplitNoSeparator(parts[0], sep);
      assert [parts[0]] + parts[1..] == parts;
    }
  }

  // ---------------------------------------------------------------------------
  // Decimal numbers

  function DigitChar(d: nat): (c: char)
    requires d < 10
    ensures '0' <= c <= '9' && c as int - '0' as int == d
  {
    ('0' as int + d) as char
  }

  /** Decimal digits of `n`, most significant first, without leading zeros. */
  function NatToString(n: nat): (r: string)
    ensures |r| >= 1
    ensures forall k :: 0 <= k < |r| ==> '0' <= r[k] <= '9'
    ensures r[0] == '0' ==> n == 0
  {
    if n < 10 then [DigitChar(n)] else NatToString(n / 10) + [DigitChar(n % 10)]
  }

  /** `"" + n` for an integer-valued number. */
  function IntToString(n: int): (r: string)
    ensures |r| >= 1
    ensures n < 0 <==> r[0] == '-'
  {
    if n < 0 then "-" + NatToString(-n) else NatToString(n)
  }

  function DigitValue(c: char): (d: int)
    ensures -1 <= d < 16
  {
    if '0' <= c <= '9' then c as int - '0' as int
    else if 'a' <= c <= 'f' then c as int - 'a' as int + 10
    else if 'A' <= c <= 'F' then c as int - 'A' as int + 10
    else -1
  }

  predicate IsDigit(c: char, radix: nat) {
    0 <= DigitValue(c) < radix
  }

  /** The longest prefix of `s` made of digits of `radix`. */
  function DigitPrefix(s: string, radix: nat): (z: string)
    ensures |z| <= |s| && z == s[..|z|]
    ensures forall k :: 0 <= k < |z| ==> IsDigit(z[k], radix)
    ensures |z| < |s| ==> !IsDigit(s[|z|], radix)
  {
    if s != [] && IsDigit(s[0], radix) then [s[0]] + DigitPrefix(s[1..], radix) else []
  }

  /** The value of a digit string, read most significant digit first. */
  function DigitsValue(z: string, radix: nat): (v: nat)
    requires forall k :: 0 <= k < |z| ==> IsDigit(z[k], radix)
  {
    if z == [] then 0
    else
      var init := z[..|z| - 1];
      assert forall k :: 0 <= k < |init| ==> init[k] == z[k];
      var high: nat := DigitsValue(init, radix);
      assert IsDigit(z[|z| - 1], radix);
      var low: nat := DigitValue(z[|z| - 1]);
      ProductOfNats(high, radix);
      high * radix + low
  }

  /** Keeps the nonlinear step out of `DigitsValue`'s own proof, where it is expensive. */
  lemma ProductOfNats(a: nat, b: nat)
    ensures a * b >= 0
  {
  }

  /** The digits after the sign: a `0x`/`0X` prefix selects base 16, otherwise base 10. */
  function ParseUnsigned(u: string): (r: Option<nat>)
  {
    var hex := |u| >= 2 && u[0] == '0' && (u[1] == 'x' || u[1] == 'X');
    var radix := if hex then 16 else 10;
    var z := DigitPrefix(if hex then u[2..] else u, radix);
    if z == [] then None else Some(DigitsValue(z, radix))
  }

  /**
   * `parseInt(s)` with no radix, `None` standing for `NaN`: leading `\s` is
   * skipped, one sign is taken, and the longest run of digits that follows
   * is read; no digits gives `NaN`.
   */
  function ParseInt(s: string): (r: Option<int>)
  {
    var t := TrimLeadingSpace(s);
    if t != [] && t[0] == '-' then
      (var m := ParseUnsigned(t[1..]); if m.Some? then Some(-(m.value as int)) else None)
    else if t != [] && t[0] == '+' then
      (var m := ParseUnsigned(t[1..]); if m.Some? then Some(m.value as int) else None)
    else
      (var m := ParseUnsigned(t); if m.Some? then Some(m.value as int) else None)
  }

  /** `parseInt` of a query parameter: an absent one is `undefined`, which parses to `NaN`. */
  function ParseIntParam(s: Option<string>): (r: Option<int>)
    ensures s.None? ==> r.None?
  {
    if s.Some? then ParseInt(s.value) else None
  }

  lemma {:induction false} NatToStringValue(n: nat)
    ensures DigitsValue(NatToString(n), 10) == n
  {
    var r := NatToString(n);
    if n >= 10 {
      NatToStringValue(n / 10);
      assert r[..|r| - 1] == NatToString(n / 10);
    }
  }

  lemma DigitPrefixAll(s: string, radix: nat)
    requires forall k :: 0 <= k < |s| ==> IsDigit(s[k], radix)
    ensures DigitPrefix(s, radix) == s
  {
  }

  lemma ParseUnsignedDigits(m: nat)
    ensures ParseUnsigned(NatToString(m)) == Some(m)
  {
    var digits := NatToString(m);
    NatToStringValue(m);
    forall k | 0 <= k < |digits| ensures IsDigit(digits[k], 10) { }
    DigitPrefixAll(digits, 10);
    assert |digits| >= 2 ==> '0' <= digits[1] <= '9';
  }

  lemma NoSpacePrefix(s: string)
    requires s != [] && (s[0] == '-' || '0' <= s[0] <= '9')
    ensures TrimLeadingSpace(s) == s
  {
    assert !IsSpace(s[0]);
  }

  /** Text that, after the leading space, opens with neither a sign nor a digit is `NaN`. */
  lemma ParseIntNaN(s: string)
    requires var t := TrimLeadingSpace(s); t == [] || !(t[0] == '-' || t[0] == '+' || '0' <= t[0] <= '9')
    ensures ParseInt(s).None?
  {
  }

  /** `parseInt` reads back every integer rendered by `"" + n`. */
  lemma {:induction false} ParseIntString(n: int)
    ensures ParseInt(IntToString(n)) == Some(n)
  {
    if n < 0 {
      ParseIntNegative(-n);
    } else {
      ParseIntNonNegative(n);
    }
  }

  lemma ParseIntNegative(m: nat)
    ensures ParseInt("-" + NatToString(m)) == Some(-(m as int))
  {
    var d := NatToString(m);
    var s := "-" + d;
    NoSpacePrefix(s);
    assert s[0] == '-' && s[1..] == d;
    ParseUnsignedDigits(m);
  }

  lemma ParseIntNonNegative(n: nat)
    ensures ParseInt(NatToString(n)) == Some(n)
  {
    var s := NatToString(n);
    NoSpacePrefix(s);
    assert s[0] != '-' && s[0] != '+';
    ParseUnsignedDigits(n);
  }
}
