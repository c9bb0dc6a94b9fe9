/** String operations of Rust's `str` that the tool relies on, over
    `string = seq<char>`: prefix and suffix tests, substring search, `split`
    on one character, `join`, `trim_end_matches`, `strip_suffix`,
    `parse::<u32>()`, `to_string()` of an unsigned integer and the
    whitespace test behind `trim().is_empty()`. */
module Text {
  import opened Wrappers

  /** Rust's `u32`: the element type of a parsed version. */
  type u32 = x: int | 0 <= x < 0x1_0000_0000

  const U32Max: int := 0xFFFF_FFFF

  predicate StartsWith(s: string, prefix: string) {
    |prefix| <= |s| && s[..|prefix|] == prefix
  }

  predicate EndsWith(s: string, suffix: string) {
    |suffix| <= |s| && s[|s| - |suffix|..] == suffix
  }

  /** `s.contains(t)`: t occurs in s at some position. */
  predicate Contains(s: string, t: string)
    decreases |s|
  {
    StartsWith(s, t) || (|s| > 0 && Contains(s[1..], t))
  }

  /** The index of the first `c` in `s`, or `|s|` when there is none. */
  function IndexOf(s: string, c: char): (i: nat)
    ensures i <= |s|
    ensures i < |s| ==> s[i] == c
    ensures c !in s[..i]
    decreases |s|
  {
    if |s| == 0 then 0
    else if s[0] == c then 0
    else
      var j := IndexOf(s[1..], c);
      assert s[1..][..j] == s[1..j + 1];
      assert s[..j + 1] == [s[0]] + s[1..j + 1];
      1 + j
  }

  /** `parts.join(sep)`. */
  function Join(parts: seq<string>, sep: string): string
    decreases |parts|
  {
    if |parts| == 0 then ""
    else if |parts| == 1 then parts[0]
    else parts[0] + sep + Join(parts[1..], sep)
  }

  /** Joining a head and a non-empty tail puts the separator between the
      head and the join of the tail. */
  lemma JoinCons(head: string, tail: seq<string>, sep: string)
    requires |tail| > 0
    ensures Join([head] + tail, sep) == head + sep + Join(tail, sep)
  {
    assert ([head] + tail)[1..] == tail;
  }

  /** `s.split(c)`: the pieces between occurrences of `c`; there is always at
      least one piece, and joining the pieces with `c` gives back `s`. */
  function Split(s: string, c: char): (parts: seq<string>)
    ensures |parts| >= 1
    ensures forall k :: 0 <= k < |parts| ==> c !in parts[k]
    ensures Join(parts, [c]) == s
    decreases |s|
  {
    var i := IndexOf(s, c);
    if i == |s| then
      assert s[..i] == s;
      [s]
    else
      var rest := Split(s[i + 1..], c);
      var parts := [s[..i]] + rest;
      assert parts[1..] == rest;
      assert s == s[..i] + [c] + s[i + 1..];
      parts
  }

  /** Splitting a join of separator-free pieces gives the pieces back. */
  lemma {:induction false} SplitJoin(parts: seq<string>, c: char)
    requires |parts| >= 1
    requires forall k :: 0 <= k < |parts| ==> c !in parts[k]
    ensures Split(Join(parts, [c]), c) == parts
    decreases |parts|
  {
    var s := Join(parts, [c]);
    if |parts| == 1 {
      assert IndexOf(s, c) == |s|;
    } else {
      SplitJoin(parts[1..], c);
      var j := Join(parts[1..], [c]);
      assert s == parts[0] + [c] + j;
      var i := IndexOf(s, c);
      assert s[|parts[0]|] == c;
      assert c !in parts[0];
      assert s[..|parts[0]|] == parts[0];
      assert forall k :: 0 <= k < |parts[0]| ==> s[k] == parts[0][k] != c;
      assert i == |parts[0]|;
      assert s[i + 1..] == j;
    }
  }

  /** Splitting at the first separator gives the text before it, then the
      pieces of the rest. */
  lemma SplitFirst(a: string, c: char, b: string)
    requires c !in a
    ensures Split(a + [c] + b, c) == [a] + Split(b, c)
  {
    var s := a + [c] + b;
    var i := IndexOf(s, c);
    assert s[|a|] == c;
    assert s[..|a|] == a;
    assert i == |a|;
    assert s[..i] == a && s[i + 1..] == b;
  }

  /** With at least two pieces, the first piece is the text before the
      first separator. */
  lemma SplitHead(s: string, c: char)
    requires |Split(s, c)| >= 2
    ensures |Split(s, c)[0]| < |s| && s[..|Split(s, c)[0]|] == Split(s, c)[0]
    ensures s[|Split(s, c)[0]|] == c
  {
    var i := IndexOf(s, c);
    assert i < |s|;
    assert Split(s, c)[0] == s[..i];
  }

  /** `n` copies of `pat`, one after another. */
  function Repeat(pat: string, n: nat): (r: string)
    ensures |r| == n * |pat|
  {
    if n == 0 then "" else Repeat(pat, n - 1) + pat
  }

  /** Putting back one copy of `pat` removed from the end of `s`. */
  lemma TrimStep(s: string, pat: string, r: string, n: nat)
    requires EndsWith(s, pat) && s[..|s| - |pat|] == r + Repeat(pat, n)
    ensures s == r + Repeat(pat, n + 1)
  {
    assert s == s[..|s| - |pat|] + pat;
    assert (r + Repeat(pat, n)) + pat == r + (Repeat(pat, n) + pat);
  }

  /** `s.trim_end_matches(pat)`: repeatedly removes `pat` from the end, so
      that what is left, followed by the copies of `pat` removed, is `s`. */
  function TrimEndMatches(s: string, pat: string): (r: string)
    requires |pat| > 0
    ensures !EndsWith(r, pat)
    ensures exists n: nat :: s == r + Repeat(pat, n)
    decreases |s|
  {
    if EndsWith(s, pat) then
      var front := s[..|s| - |pat|];
      var r := TrimEndMatches(front, pat);
      assert exists n: nat :: s == r + Repeat(pat, n) by {
        var n: nat :| front == r + Repeat(pat, n);
        TrimStep(s, pat, r, n);
      }
      r
    else
      assert s == s + Repeat(pat, 0);
      s
  }

  /** `s.strip_suffix(suffix)`. */
  function StripSuffix(s: string, suffix: string): (r: Option<string>)
    ensures r.Some? <==> EndsWith(s, suffix)
    ensures r.Some? ==> r.value + suffix == s
  {
    if EndsWith(s, suffix) then Some(s[..|s| - |suffix|]) else None
  }

  /** `s.strip_prefix(prefix)`. */
  function StripPrefix(s: string, prefix: string): (r: Option<string>)
    ensures r.Some? <==> StartsWith(s, prefix)
    ensures r.Some? ==> prefix + r.value == s
  {
    if StartsWith(s, prefix) then Some(s[|prefix|..]) else None
  }

  /** The index of the last `c` in `s`, if any. */
  function LastIndexOf(s: string, c: char): (r: Option<nat>)
    ensures r.Some? ==> r.value < |s| && s[r.value] == c && c !in s[r.value + 1..]
    ensures r.None? <==> c !in s
    decreases |s|
  {
    if |s| == 0 then None
    else if s[|s| - 1] == c then Some(|s| - 1)
    else
      var r := LastIndexOf(s[..|s| - 1], c);
      assert s == s[..|s| - 1] + [s[|s| - 1]];
      r
  }

  /** A string containing `t` at position `i` contains `t`. */
  lemma {:induction false} ContainsAt(s: string, t: string, i: nat)
    requires i <= |s| && StartsWith(s[i..], t)
    ensures Contains(s, t)
    decreases i
  {
    if i > 0 {
      assert s[1..][i - 1..] == s[i..];
      ContainsAt(s[1..], t, i - 1);
    }
  }

  predicate IsDigit(c: char) {
    '0' <= c <= '9'
  }

  function DigitValue(c: char): nat
    requires IsDigit(c)
  {
    c as int - '0' as int
  }

  /** The number written by a string of decimal digits. */
  function DigitsValue(d: string): nat
    requires forall k :: 0 <= k < |d| ==> IsDigit(d[k])
    decreases |d|
  {
    if |d| == 0 then 0 else DigitsValue(d[..|d| - 1]) * 10 + DigitValue(d[|d| - 1])
  }

  /** `s.parse::<u32>()`: an optional leading '+', then at least one decimal
      digit, and a value that fits 32 bits; anything else is an error (None). */
  function ParseU32(s: string): (r: Option<u32>)
    ensures r.Some? ==> |s| > 0
    ensures r.Some? ==> forall k :: 0 <= k < |s| ==> IsDigit(s[k]) || (k == 0 && s[k] == '+')
  {
    var digits := if |s| > 0 && s[0] == '+' then s[1..] else s;
    if |digits| == 0 || !(forall k :: 0 <= k < |digits| ==> IsDigit(digits[k])) then None
    else
      var v := DigitsValue(digits);
      if v > U32Max then None else Some(v)
  }

  /** `n.to_string()` for an unsigned integer: its decimal digits. */
  function DecimalString(n: nat): (s: string)
    ensures |s| > 0
    ensures forall k :: 0 <= k < |s| ==> IsDigit(s[k])
    ensures DigitsValue(s) == n
    decreases n
  {
    var d := [(48 + n % 10) as char];
    if n < 10 then
      d
    else
      var s := DecimalString(n / 10) + d;
      assert s[..|s| - 1] == DecimalString(n / 10);
      s
  }

  /** Printing and then parsing a 32-bit number gives it back. */
  lemma DecimalStringParses(n: u32)
    ensures ParseU32(DecimalString(n)) == Some(n)
  {
    var s := DecimalString(n);
    assert s[0] != '+';
  }

  /** Rust's `char::is_whitespace`: the Unicode White_Space property. */
  predicate IsWhitespace(c: char) {
    ('\U{9}' <= c <= '\U{D}') || c == ' ' || c == '\U{85}' || c == '\U{A0}'
    || c == '\U{1680}' || ('\U{2000}' <= c <= '\U{200A}') || c == '\U{2028}'
    || c == '\U{2029}' || c == '\U{202F}' || c == '\U{205F}' || c == '\U{3000}'
  }

  /** `s.trim().is_empty()`: every character is whitespace. */
  predicate IsBlank(s: string) {
    forall k :: 0 <= k < |s| ==> IsWhitespace(s[k])
  }

  /** ASCII lower-casing; for the comparison with "png" this agrees with
      Rust's Unicode `to_lowercase`, since no other character lower-cases to
      an ASCII letter of that word. */
  function AsciiLower(s: string): (r: string)
    ensures |r| == |s|
  {
    seq(|s|, k requires 0 <= k < |s| =>
      if 'A' <= s[k] <= 'Z' then (s[k] as int + 32) as char else s[k])
  }

  function Min(a: int, b: int): int {
    if a <= b then a else b
  }

  function Max(a: int, b: int): int {
    if a >= b then a else b
  }

  // ---------------------------------------------------------------------
  // File names

  /** The last '/'-separated segment of a relative path. */
  function FileName(path: string): (name: string)
    ensures '/' !in name
  {
    var parts := Split(path, '/');
    parts[|parts| - 1]
  }

  /** The file name is the last piece of the path. */
  lemma FileNameIsLast(path: string)
    ensures FileName(path) == Split(path, '/')[|Split(path, '/')| - 1]
  {
  }

  /** `Path::extension` of a file name: the text after the last '.', unless
      there is no '.' or the only text before it is empty. */
  function FileExtension(name: string): (r: Option<string>)
    ensures r.Some? ==> EndsWith(name, "." + r.value) && |name| > |r.value| + 1
  {
    match LastIndexOf(name, '.')
    case None => None
    case Some(i) => if i == 0 then None else Some(name[i + 1..])
  }

  /** A file name has extension e (without dots) exactly when it ends with
      "." + e after at least one more character. */
  lemma ExtensionIff(name: string, e: string)
    requires '.' !in e
    ensures FileExtension(name) == Some(e) <==> EndsWith(name, "." + e) && |name| > |e| + 1
  {
    if EndsWith(name, "." + e) && |name| > |e| + 1 {
      var i := |name| - |e| - 1;
      assert name[i] == '.';
      assert name[i + 1..] == e;
      assert LastIndexOf(name, '.') == Some(i);
    }
  }

  /** `Path::file_stem` of a file name: the part before the last '.',
      unless there is no '.' or nothing precedes it. */
  function FileStem(name: string): (stem: string)
    ensures StartsWith(name, stem)
    ensures |stem| > 0 <==> |name| > 0
  {
    match LastIndexOf(name, '.')
    case None => name
    case Some(i) => if i == 0 then name else name[..i]
  }
}
