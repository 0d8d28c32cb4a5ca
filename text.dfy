/** The handful of Python `str` operations the log pipeline relies on, over `seq<char>`. */
module Text {
  import opened Wrappers

  /** Python's `str.isspace()`, which is also what `\s` matches in a `re` pattern over `str`. */
  predicate IsSpace(c: char) {
    c == ' ' || c == '\t' || c == '\n' || c == '\r' || c == '\U{0B}' || c == '\U{0C}'
    || ('\U{1C}' <= c <= '\U{1F}') || c == '\U{85}' || c == '\U{A0}' || c == '\U{1680}'
    || ('\U{2000}' <= c <= '\U{200A}') || c == '\U{2028}' || c == '\U{2029}'
    || c == '\U{202F}' || c == '\U{205F}' || c == '\U{3000}'
  }

  predicate IsDigit(c: char) { '0' <= c <= '9' }

  function ToLower(c: char): char {
    if 'A' <= c <= 'Z' then (c as int + 32) as char else c
  }

  /** `s.lower()`, restricted to ASCII letters. */
  function Lower(s: string): string {
    seq(|s|, i requires 0 <= i < |s| => ToLower(s[i]))
  }

  predicate StartsWith(s: string, p: string) {
    |p| <= |s| && s[..|p|] == p
  }

  /** `s.find(p)`: the leftmost position where `p` occurs in `s`. */
  function IndexOf(s: string, p: string): (r: Option<nat>)
    ensures r.Some? ==> r.value + |p| <= |s| && s[r.value..r.value + |p|] == p
    decreases |s|
  {
    if StartsWith(s, p) then Some(0)
    else if s == [] then None
    else
      match IndexOf(s[1..], p)
      case Some(i) =>
        assert s[i + 1..i + 1 + |p|] == s[1..][i..i + |p|];
        Some(i + 1)
      case None => None
  }

  /** No occurrence of `p` starts before the one `IndexOf` reports, and none at all when it reports none. */
  lemma {:induction false} IndexOfLeftmost(s: string, p: string)
    ensures var r := IndexOf(s, p);
      forall j | 0 <= j <= |s| && (r.None? || j < r.value) :: !StartsWith(s[j..], p)
    decreases |s|
  {
    if !StartsWith(s, p) && s != [] {
      IndexOfLeftmost(s[1..], p);
      assert forall j | 1 <= j <= |s| :: s[j..] == s[1..][j - 1..];
    }
  }

  /** Python's `p in s`. */
  predicate Contains(s: string, p: string) {
    IndexOf(s, p).Some?
  }

  /** `s.replace(p, r, 1)`. */
  function ReplaceFirst(s: string, p: string, r: string): string {
    match IndexOf(s, p)
    case Some(i) => s[..i] + r + s[i + |p|..]
    case None => s
  }

  /** `s.replace(p, r)` for a non-empty `p`: every non-overlapping occurrence, leftmost first.
      A replacement no longer than the pattern never lengthens the text. */
  function ReplaceAll(s: string, p: string, r: string): (out: string)
    requires p != []
    ensures |r| <= |p| ==> |out| <= |s|
    decreases |s|
  {
    match IndexOf(s, p)
    case Some(i) => s[..i] + r + ReplaceAll(s[i + |p|..], p, r)
    case None => s
  }

  function LStrip(s: string): string {
    if s != [] && IsSpace(s[0]) then LStrip(s[1..]) else s
  }

  function RStrip(s: string): string {
    if s != [] && IsSpace(s[|s| - 1]) then RStrip(s[..|s| - 1]) else s
  }

  /** `s.strip()`. */
  function Strip(s: string): string {
    RStrip(LStrip(s))
  }

  /** `lstrip()` keeps a suffix, one that does not start with whitespace. */
  lemma {:induction false} LStripSuffix(s: string)
    ensures |LStrip(s)| <= |s| && LStrip(s) == s[|s| - |LStrip(s)|..]
    ensures LStrip(s) != [] ==> !IsSpace(LStrip(s)[0])
  {
    if s != [] && IsSpace(s[0]) {
      LStripSuffix(s[1..]);
    }
  }

  /** `rstrip()` keeps a prefix, one that does not end with whitespace. */
  lemma {:induction false} RStripPrefix(s: string)
    ensures |RStrip(s)| <= |s| && RStrip(s) == s[..|RStrip(s)|]
    ensures RStrip(s) != [] ==> !IsSpace(RStrip(s)[|RStrip(s)| - 1])
  {
    if s != [] && IsSpace(s[|s| - 1]) {
      RStripPrefix(s[..|s| - 1]);
    }
  }

  /** `strip()` leaves no whitespace at either end and never lengthens. */
  lemma StripTrims(s: string)
    ensures |Strip(s)| <= |s|
    ensures Strip(s) == [] || (!IsSpace(Strip(s)[0]) && !IsSpace(Strip(s)[|Strip(s)| - 1]))
  {
    LStripSuffix(s);
    RStripPrefix(LStrip(s));
    var t := LStrip(s);
    if RStrip(t) != [] {
      assert RStrip(t)[0] == t[0];
    }
  }

  /** `strip()` is idempotent. */
  lemma StripOfStripped(s: string)
    ensures Strip(Strip(s)) == Strip(s)
  {
    StripTrims(s);
    var t := Strip(s);
    if t != [] {
      assert LStrip(t) == t;
      assert RStrip(t) == t;
    }
  }

  /** A text with no whitespace at either end is its own `strip()`. */
  lemma StripUntrimmed(s: string)
    requires s != [] && !IsSpace(s[0]) && !IsSpace(s[|s| - 1])
    ensures Strip(s) == s
  {
    assert LStrip(s) == s;
    assert RStrip(s) == s;
  }

  /** `s.rstrip(c)` for a single character `c`. */
  function RStripChar(s: string, c: char): string {
    if s != [] && s[|s| - 1] == c then RStripChar(s[..|s| - 1], c) else s
  }

  function WordLength(s: string): (n: nat)
    ensures n <= |s|
    ensures s != [] && !IsSpace(s[0]) ==> n >= 1
  {
    if s == [] || IsSpace(s[0]) then 0 else 1 + WordLength(s[1..])
  }

  /** `s.split()`: the maximal runs of non-whitespace characters. */
  function Words(s: string): seq<string>
    decreases |s|
  {
    if s == [] then []
    else if IsSpace(s[0]) then Words(s[1..])
    else
      var n := WordLength(s);
      [s[..n]] + Words(s[n..])
  }

  /** `s.find(c)` for a single character: the position of the first `c`. */
  function FindChar(s: string, c: char): (r: Option<nat>)
    ensures r.Some? ==> r.value < |s| && s[r.value] == c && c !in s[..r.value]
    ensures r.None? ==> c !in s
  {
    if s == [] then None
    else if s[0] == c then Some(0)
    else
      match FindChar(s[1..], c)
      case Some(i) =>
        assert s[..i + 1] == [s[0]] + s[1..][..i];
        Some(i + 1)
      case None => None
  }

  /** `s.split(sep, maxsplit)` for a one-character separator. */
  function SplitOn(s: string, sep: char, maxsplit: nat): (r: seq<string>)
    ensures 1 <= |r| <= maxsplit + 1
    decreases maxsplit
  {
    if maxsplit == 0 then [s]
    else
      match FindChar(s, sep)
      case Some(i) => [s[..i]] + SplitOn(s[i + 1..], sep, maxsplit - 1)
      case None => [s]
  }

  /** `sep.join(parts)`. */
  function Join(parts: seq<string>, sep: string): string {
    if parts == [] then ""
    else if |parts| == 1 then parts[0]
    else parts[0] + sep + Join(parts[1..], sep)
  }

  function DigitChar(d: nat): char
    requires d < 10
  {
    ('0' as int + d) as char
  }

  /** `str(n)` for a natural number. */
  function NatToString(n: nat): string {
    if n < 10 then [DigitChar(n)] else NatToString(n / 10) + [DigitChar(n % 10)]
  }

  /** Digits as `int(...)` accepts them: at least one digit, single underscores only between digits. */
  predicate WellFormedDigits(d: string) {
    && d != []
    && IsDigit(d[0])
    && IsDigit(d[|d| - 1])
    && (forall i | 0 <= i < |d| :: IsDigit(d[i]) || d[i] == '_')
    && (forall i | 0 <= i < |d| - 1 :: d[i] == '_' ==> IsDigit(d[i + 1]))
  }

  /** The value of a digit string, skipping underscores. */
  function DigitsValue(d: string): nat {
    if d == [] then 0
    else if IsDigit(d[|d| - 1]) then DigitsValue(d[..|d| - 1]) * 10 + (d[|d| - 1] as int - '0' as int)
    else DigitsValue(d[..|d| - 1])
  }

  /** Python's `int(s)` on a decimal string (ASCII digits only); `None` where it raises `ValueError`. */
  function ParseInt(s: string): Option<int> {
    var t := Strip(s);
    if t != [] && (t[0] == '+' || t[0] == '-') then
      if WellFormedDigits(t[1..]) then
        Some(if t[0] == '-' then -(DigitsValue(t[1..]) as int) else DigitsValue(t[1..]))
      else None
    else if WellFormedDigits(t) then Some(DigitsValue(t))
    else None
  }
}
