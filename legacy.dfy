/**
 * The first-generation pipeline (db.py): journal lines are scrubbed of their volatile fields and
 * counted, the counts go out every interval as plain lines or repeat summaries with running ids,
 * an embedding worker indexes them in batches, and a query line is parsed into its text, `k` and
 * display mode before the index is searched.
 */
module Legacy {
  import opened Wrappers
  import opened Text
  import opened Lists

  /** The worker embeds as soon as its batch holds this many lines. */
  const BatchSize: nat := 16
  /** The number of hits a query asks for unless it says otherwise. */
  const DefaultK: int := 5

  // ---------------------------------------------------------------- normalize_log

  /** The pieces of the journal header: one letter or colon, or a non-empty run of one class. */
  datatype Piece = Capital | Small | Colon | Spaces | Digits | NonSpaces

  predicate Admits(p: Piece, c: char) {
    match p
    case Capital => 'A' <= c <= 'Z'
    case Small => 'a' <= c <= 'z'
    case Colon => c == ':'
    case Spaces => IsSpace(c)
    case Digits => IsDigit(c)
    case NonSpaces => !IsSpace(c)
  }

  predicate IsRun(p: Piece) {
    p.Spaces? || p.Digits? || p.NonSpaces?
  }

  /**
   * The header the first substitution removes: a capitalised three-letter month, the day, the
   * hour, minutes and seconds, the host name, each followed by its whitespace.
   */
  const Header: seq<Piece> :=
    [Capital, Small, Small, Spaces, Digits, Spaces, Digits, Colon, Digits, Colon, Digits, Spaces, NonSpaces, Spaces]

  /** The length of the longest prefix of `s` whose characters `p` admits. */
  function RunOf(p: Piece, s: string): (n: nat)
    ensures n <= |s|
    ensures forall i | 0 <= i < n :: Admits(p, s[i])
    ensures n < |s| ==> !Admits(p, s[n])
  {
    if s != [] && Admits(p, s[0]) then 1 + RunOf(p, s[1..]) else 0
  }

  /**
   * The length of the prefix of `s` that `pattern` matches, if it matches one. Every run in the
   * header is followed by a piece its class excludes, so handing back characters of a run can never
   * let the rest match: the greedy run is the match the regular-expression engine reports.
   */
  function MatchLength(pattern: seq<Piece>, s: string): (r: Option<nat>)
    ensures r.Some? ==> r.value <= |s|
    decreases |pattern|
  {
    if pattern == [] then Some(0)
    else
      var p := pattern[0];
      var n := if IsRun(p) then RunOf(p, s) else if s != [] && Admits(p, s[0]) then 1 else 0;
      if n == 0 then None else Shift(MatchLength(pattern[1..], s[n..]), n)
  }

  function Shift(r: Option<nat>, n: nat): Option<nat> {
    match r
    case Some(m) => Some(n + m)
    case None => None
  }

  /** The first substitution: the header is removed when the line starts with one. */
  function StripHeader(s: string): string {
    match MatchLength(Header, s)
    case Some(n) => s[n..]
    case None => s
  }

  /** The length of a PID marker (an opening bracket, digits, a closing bracket) at the start of `s`, or 0. */
  function PidLength(s: string): (n: nat)
    ensures n <= |s|
  {
    if s != [] && s[0] == '[' then
      var d := RunOf(Digits, s[1..]);
      if d > 0 && d + 1 < |s| && s[d + 1] == ']' then d + 2 else 0
    else 0
  }

  /** The second substitution: every PID marker, scanning left to right, is removed. */
  function RemovePids(s: string): string
    decreases |s|
  {
    if s == [] then []
    else
      var n := PidLength(s);
      if n > 0 then RemovePids(s[n..]) else [s[0]] + RemovePids(s[1..])
  }

  /** The third substitution: each run of whitespace becomes one space. */
  function CollapseSpaces(s: string): string
    decreases |s|
  {
    if s == [] then []
    else if IsSpace(s[0]) then " " + CollapseSpaces(s[RunOf(Spaces, s)..])
    else [s[0]] + CollapseSpaces(s[1..])
  }

  /** `normalize_log`: the three substitutions, then `strip()`. */
  function NormalizeLog(line: string): string {
    Strip(CollapseSpaces(RemovePids(StripHeader(line))))
  }

  /** Its only whitespace is single spaces. */
  predicate SingleSpaced(s: string) {
    && (forall i | 0 <= i < |s| :: IsSpace(s[i]) ==> s[i] == ' ')
    && (forall i | 0 <= i < |s| - 1 :: !(s[i] == ' ' && s[i + 1] == ' '))
  }

  /** Single-spaced, with no whitespace at either end. */
  predicate Tidy(s: string) {
    SingleSpaced(s) && (s != [] ==> !IsSpace(s[0]) && !IsSpace(s[|s| - 1]))
  }

  lemma CollapseHead(s: string)
    requires s != [] && !IsSpace(s[0])
    ensures CollapseSpaces(s) != [] && CollapseSpaces(s)[0] == s[0]
  {
  }

  /** Collapsing leaves only single spaces. */
  lemma {:induction false} CollapseSingleSpaced(s: string)
    ensures SingleSpaced(CollapseSpaces(s))
    decreases |s|
  {
    if s != [] {
      if IsSpace(s[0]) {
        var rest := s[RunOf(Spaces, s)..];
        CollapseSingleSpaced(rest);
        if rest != [] {
          CollapseHead(rest);
        }
      } else {
        CollapseSingleSpaced(s[1..]);
      }
    }
  }

  lemma SliceSingleSpaced(s: string, i: nat, j: nat)
    requires SingleSpaced(s) && i <= j <= |s|
    ensures SingleSpaced(s[i..j])
  {
    assert forall k | 0 <= k < j - i :: s[i..j][k] == s[i + k];
  }

  lemma StripTidy(s: string)
    requires SingleSpaced(s)
    ensures Tidy(Strip(s))
  {
    LStripSuffix(s);
    var l := LStrip(s);
    SliceSingleSpaced(s, |s| - |l|, |s|);
    RStripPrefix(l);
    SliceSingleSpaced(l, 0, |RStrip(l)|);
  }

  /** A normalised line has no whitespace at its ends and none but single spaces inside. */
  lemma NormalizedIsTidy(line: string)
    ensures Tidy(NormalizeLog(line))
  {
    CollapseSingleSpaced(RemovePids(StripHeader(line)));
    StripTidy(CollapseSpaces(RemovePids(StripHeader(line))));
  }

  lemma {:induction false} RunConcat(p: Piece, a: string, b: string)
    requires forall i | 0 <= i < |a| :: Admits(p, a[i])
    requires b == [] || !Admits(p, b[0])
    ensures RunOf(p, a + b) == |a|
  {
    if a != [] {
      assert (a + b)[1..] == a[1..] + b;
      RunConcat(p, a[1..], b);
    }
  }

  /** The pattern matches `s` up to the suffix `rest`. */
  predicate MatchesUpTo(pattern: seq<Piece>, s: string, rest: string) {
    |rest| <= |s| && s[|s| - |rest|..] == rest && MatchLength(pattern, s) == Some(|s| - |rest|)
  }

  /** A run piece consumes exactly a non-empty run followed by a character outside its class. */
  lemma MatchRun(pattern: seq<Piece>, a: string, b: string, rest: string)
    requires pattern != [] && IsRun(pattern[0]) && a != []
    requires forall i | 0 <= i < |a| :: Admits(pattern[0], a[i])
    requires b == [] || !Admits(pattern[0], b[0])
    requires MatchesUpTo(pattern[1..], b, rest)
    ensures MatchesUpTo(pattern, a + b, rest)
  {
    RunConcat(pattern[0], a, b);
    assert (a + b)[|a|..] == b;
    assert (a + b)[|a + b| - |rest|..] == b[|b| - |rest|..];
  }

  lemma MatchChar(pattern: seq<Piece>, c: char, b: string, rest: string)
    requires pattern != [] && !IsRun(pattern[0]) && Admits(pattern[0], c)
    requires MatchesUpTo(pattern[1..], b, rest)
    ensures MatchesUpTo(pattern, [c] + b, rest)
  {
    assert ([c] + b)[1..] == b;
    assert ([c] + b)[|[c] + b| - |rest|..] == b[|b| - |rest|..];
  }

  /** Text without an opening bracket passes the second substitution unchanged, whatever follows it. */
  lemma {:induction false} RemovePidsPlain(a: string, b: string)
    requires '[' !in a
    ensures RemovePids(a + b) == a + RemovePids(b)
  {
    if a != [] {
      assert (a + b)[1..] == a[1..] + b;
      assert a[0] in a;
      RemovePidsPlain(a[1..], b);
      assert a == [a[0]] + a[1..];
    } else {
      assert a + b == b;
    }
  }

  /** A PID marker vanishes and the scan goes on after it. */
  lemma RemovePidsMarker(d: string, b: string)
    requires d != [] && forall i | 0 <= i < |d| :: IsDigit(d[i])
    ensures RemovePids("[" + d + "]" + b) == RemovePids(b)
  {
    var s := "[" + d + "]" + b;
    assert s[1..] == d + ("]" + b);
    RunConcat(Digits, d, "]" + b);
    assert s[|d| + 1] == ']';
    assert s[|d| + 2..] == b;
  }

  /** Single-spaced text has no run to collapse. */
  lemma {:induction false} CollapseSingle(s: string)
    requires SingleSpaced(s)
    ensures CollapseSpaces(s) == s
    decreases |s|
  {
    if s != [] {
      SliceSingleSpaced(s, 1, |s|);
      if IsSpace(s[0]) {
        if |s| > 1 {
          assert !IsSpace(s[1]);
        }
        assert RunOf(Spaces, s) == 1;
      }
      CollapseSingle(s[1..]);
    }
  }

  lemma StripTidyText(s: string)
    requires Tidy(s)
    ensures Strip(s) == s
  {
  }

  /**
   * `normalize_log` leaves alone a tidy line with no PID marker (indeed no opening bracket) that
   * does not start with a journal header, such as its own output in the usual case.
   */
  lemma NormalizeFixpoint(s: string)
    requires Tidy(s) && '[' !in s && MatchLength(Header, s).None?
    ensures NormalizeLog(s) == s
  {
    RemovePidsPlain(s, []);
    assert s + [] == s;
    CollapseSingle(s);
    StripTidyText(s);
  }

  predicate AllAdmitted(p: Piece, s: string) {
    s != [] && forall i | 0 <= i < |s| :: Admits(p, s[i])
  }

  /** A journal line in `short` format: month, day, clock time and host, each with the whitespace after it. */
  function JournalLine(month: string, g1: string, day: string, g2: string, hh: string, mm: string, ss: string,
                       g3: string, host: string, g4: string, msg: string): string
    requires |month| == 3
  {
    month + (g1 + (day + (g2 + (hh + (":" + (mm + (":" + (ss + (g3 + (host + (g4 + msg)))))))))))
  }

  /** Whatever the whitespace runs and however long the numbers, a journal header is removed and the message kept. */
  lemma HeaderRemoved(month: string, g1: string, day: string, g2: string, hh: string, mm: string, ss: string,
                      g3: string, host: string, g4: string, msg: string)
    requires |month| == 3 && Admits(Capital, month[0]) && Admits(Small, month[1]) && Admits(Small, month[2])
    requires AllAdmitted(Spaces, g1) && AllAdmitted(Spaces, g2) && AllAdmitted(Spaces, g3) && AllAdmitted(Spaces, g4)
    requires AllAdmitted(Digits, day) && AllAdmitted(Digits, hh) && AllAdmitted(Digits, mm) && AllAdmitted(Digits, ss)
    requires AllAdmitted(NonSpaces, host)
    requires msg == [] || !IsSpace(msg[0])
    ensures StripHeader(JournalLine(month, g1, day, g2, hh, mm, ss, g3, host, g4, msg)) == msg
  {
    var u := hh + (":" + (mm + (":" + (ss + (g3 + (host + (g4 + msg)))))));
    TimeHostPart(hh, mm, ss, g3, host, g4, msg);
    var v := g1 + (day + (g2 + u));
    DayPart(g1, day, g2, u, msg);
    MonthPart(month, v, msg);
    StripMatched(month + v, msg);
  }

  /** A line the header pattern matches up to `rest` loses exactly the matched prefix. */
  lemma StripMatched(s: string, rest: string)
    requires MatchesUpTo(Header, s, rest)
    ensures StripHeader(s) == rest
  {
  }

  lemma TimeHostPart(hh: string, mm: string, ss: string, g3: string, host: string, g4: string, msg: string)
    requires AllAdmitted(Digits, hh) && AllAdmitted(Digits, mm) && AllAdmitted(Digits, ss) && AllAdmitted(Spaces, g3)
    requires AllAdmitted(NonSpaces, host) && AllAdmitted(Spaces, g4)
    requires msg == [] || !IsSpace(msg[0])
    ensures MatchesUpTo(Header[6..], hh + (":" + (mm + (":" + (ss + (g3 + (host + (g4 + msg))))))), msg)
  {
    HostPart(host, g4, msg);
    ClockPart(hh, mm, ss, g3, host + (g4 + msg), msg);
  }

  lemma HostPart(host: string, g4: string, msg: string)
    requires AllAdmitted(NonSpaces, host) && AllAdmitted(Spaces, g4)
    requires msg == [] || !IsSpace(msg[0])
    ensures MatchesUpTo(Header[12..], host + (g4 + msg), msg)
  {
    assert Header[14..] == [];
    assert MatchesUpTo(Header[14..], msg, msg);
    MatchRun(Header[13..], g4, msg, msg);
    MatchRun(Header[12..], host, g4 + msg, msg);
  }

  lemma ClockPart(hh: string, mm: string, ss: string, g3: string, t: string, msg: string)
    requires AllAdmitted(Digits, hh) && AllAdmitted(Digits, mm) && AllAdmitted(Digits, ss) && AllAdmitted(Spaces, g3)
    requires t != [] && !IsSpace(t[0]) && MatchesUpTo(Header[12..], t, msg)
    ensures MatchesUpTo(Header[6..], hh + (":" + (mm + (":" + (ss + (g3 + t))))), msg)
  {
    var s11 := g3 + t;
    var s10 := ss + s11;
    var s9 := ":" + s10;
    var s8 := mm + s9;
    var s7 := ":" + s8;
    MatchRun(Header[11..], g3, t, msg);
    MatchRun(Header[10..], ss, s11, msg);
    MatchChar(Header[9..], ':', s10, msg);
    MatchRun(Header[8..], mm, s9, msg);
    MatchChar(Header[7..], ':', s8, msg);
    MatchRun(Header[6..], hh, s7, msg);
  }

  lemma DayPart(g1: string, day: string, g2: string, u: string, msg: string)
    requires AllAdmitted(Spaces, g1) && AllAdmitted(Digits, day) && AllAdmitted(Spaces, g2)
    requires u != [] && IsDigit(u[0]) && MatchesUpTo(Header[6..], u, msg)
    ensures MatchesUpTo(Header[3..], g1 + (day + (g2 + u)), msg)
  {
    DayGap(g2, u, msg);
    DayDigits(day, g2 + u, msg);
    MonthGap(g1, day + (g2 + u), msg);
  }

  lemma MonthGap(g1: string, x: string, msg: string)
    requires AllAdmitted(Spaces, g1)
    requires x != [] && IsDigit(x[0]) && MatchesUpTo(Header[4..], x, msg)
    ensures MatchesUpTo(Header[3..], g1 + x, msg)
  {
    MatchRun(Header[3..], g1, x, msg);
  }

  lemma DayDigits(day: string, w: string, msg: string)
    requires AllAdmitted(Digits, day)
    requires w != [] && IsSpace(w[0]) && MatchesUpTo(Header[5..], w, msg)
    ensures MatchesUpTo(Header[4..], day + w, msg)
  {
    MatchRun(Header[4..], day, w, msg);
  }

  lemma DayGap(g2: string, u: string, msg: string)
    requires AllAdmitted(Spaces, g2)
    requires u != [] && IsDigit(u[0]) && MatchesUpTo(Header[6..], u, msg)
    ensures MatchesUpTo(Header[5..], g2 + u, msg)
  {
    MatchRun(Header[5..], g2, u, msg);
  }

  lemma MonthPart(month: string, v: string, msg: string)
    requires |month| == 3 && Admits(Capital, month[0]) && Admits(Small, month[1]) && Admits(Small, month[2])
    requires MatchesUpTo(Header[3..], v, msg)
    ensures MatchesUpTo(Header, month + v, msg)
  {
    MatchChars(Header, month, v, msg);
  }

  /** Single-character pieces consume one admitted character each. */
  lemma {:induction false} MatchChars(pattern: seq<Piece>, a: string, b: string, rest: string)
    requires |a| <= |pattern|
    requires forall i | 0 <= i < |a| :: !IsRun(pattern[i]) && Admits(pattern[i], a[i])
    requires MatchesUpTo(pattern[|a|..], b, rest)
    ensures MatchesUpTo(pattern, a + b, rest)
  {
    if a == [] {
      assert a + b == b;
    } else {
      assert pattern[1..][|a| - 1..] == pattern[|a|..];
      MatchChars(pattern[1..], a[1..], b, rest);
      MatchChar(pattern, a[0], a[1..] + b, rest);
      assert a + b == [a[0]] + (a[1..] + b);
    }
  }

  /** PID markers go wherever they sit between bracket-free text. */
  lemma PidsRemoved(name: string, digits: string, rest: string)
    requires '[' !in name && '[' !in rest
    requires AllAdmitted(Digits, digits)
    ensures RemovePids(name + ("[" + digits + "]" + rest)) == name + rest
  {
    RemovePidsMarker(digits, rest);
    RemovePidsPlain(rest, []);
    assert rest + [] == rest;
    RemovePidsPlain(name, "[" + digits + "]" + rest);
  }

  /** The documented example's result is already tidy. */
  lemma ExampleSpacing(out: string)
    requires out == "systemd" + (": " + "ollama.service failed")
    ensures CollapseSpaces(out) == out && Strip(out) == out
  {
    var w1, w2, w3 := "systemd:", "ollama.service", "failed";
    assert out == w1 + " " + (w2 + " " + w3);
    ExampleWords();
    JoinWords(w2, w3);
    JoinWords(w1, w2 + " " + w3);
    CollapseSingle(out);
  }

  lemma ExampleWords()
    ensures Word("systemd:") && Word("ollama.service") && Word("failed")
  {
  }

  /** No whitespace at all. */
  predicate Word(w: string) {
    w != [] && forall i | 0 <= i < |w| :: !IsSpace(w[i])
  }

  /** Two tidy pieces joined by one space are tidy, when the first has no space at all. */
  lemma JoinWords(a: string, b: string)
    requires Word(a) && (Word(b) || Tidy(b)) && b != []
    ensures Tidy(a + " " + b)
  {
    var s := a + " " + b;
    forall i | 0 <= i < |s| ensures IsSpace(s[i]) ==> s[i] == ' ' {
      if i > |a| {
        assert s[i] == b[i - |a| - 1];
      }
    }
    forall i | 0 <= i < |s| - 1 ensures !(s[i] == ' ' && s[i + 1] == ' ') {
      if i > |a| {
        assert s[i] == b[i - |a| - 1] && s[i + 1] == b[i - |a|];
      } else if i == |a| {
        assert s[i + 1] == b[0];
      }
    }
    assert s[|s| - 1] == b[|b| - 1];
  }

  /**
   * The example in `normalize_log`'s documentation. The line is written as four shorter literals joined
   * together, which is the same string.
   */
  lemma DocumentedExample()
    ensures NormalizeLog("Nov 04 23:58:33 " + "archlinux " + "systemd[1]: " + "ollama.service failed")
      == "systemd: " + "ollama.service failed"
  {
    var tail := "ollama.service failed";
    var msg := "systemd" + ("[" + "1" + "]" + (": " + tail));
    ExampleShape(tail);
    ExamplePieces();
    HeaderRemoved("Nov", " ", "04", " ", "23", "58", "33", " ", "archlinux", " ", msg);
    PidsRemoved("systemd", "1", ": " + tail);
    ExampleSpacing("systemd" + (": " + tail));
  }

  /** The documented line and result, cut into the pieces the general lemmas talk about. */
  lemma ExampleShape(tail: string)
    ensures "Nov 04 23:58:33 " + "archlinux " + "systemd[1]: " + tail
      == JournalLine("Nov", " ", "04", " ", "23", "58", "33", " ", "archlinux", " ", "systemd" + ("[" + "1" + "]" + (": " + tail)))
    ensures "systemd: " + tail == "systemd" + (": " + tail)
  {
    ClockLiteral();
    ProcessLiterals();
  }

  lemma ClockLiteral()
    ensures "Nov 04 23:58:33 " == "Nov" + (" " + ("04" + (" " + ("23" + (":" + ("58" + (":" + ("33" + " "))))))))
  {
  }

  lemma ProcessLiterals()
    ensures "archlinux " == "archlinux" + " "
    ensures "systemd[1]: " == "systemd" + ("[" + "1" + "]" + ": ")
    ensures "systemd: " == "systemd" + ": "
  {
  }

  /** Each piece of the documented line is of the kind its place in the header calls for. */
  lemma ExamplePieces()
    ensures |"Nov"| == 3 && Admits(Capital, "Nov"[0]) && Admits(Small, "Nov"[1]) && Admits(Small, "Nov"[2])
    ensures AllAdmitted(Spaces, " ") && AllAdmitted(Digits, "04") && AllAdmitted(Digits, "23")
    ensures AllAdmitted(Digits, "58") && AllAdmitted(Digits, "33") && AllAdmitted(NonSpaces, "archlinux")
    ensures !IsSpace("systemd"[0]) && '[' !in "systemd" && '[' !in ": " + "ollama.service failed" && AllAdmitted(Digits, "1")
  {
  }

  // ---------------------------------------------------------------- the repeat cache

  /** What the watcher counts for one line read from `journalctl`, or "" when it counts nothing. */
  function CountedText(line: string): string {
    var l := RStripChar(line, '\n');
    if l == [] then [] else NormalizeLog(l)
  }

  /** The keys are the map's, once each; every key is a non-empty normalised line counted at least once. */
  ghost predicate CacheShape(keys: seq<string>, counts: map<string, nat>) {
    && (forall i | 0 <= i < |keys| :: keys[i] in counts)
    && (forall m | m in counts :: m in keys)
    && (forall i, j | 0 <= i < j < |keys| :: keys[i] != keys[j])
    && (forall m | m in counts :: m != [] && Tidy(m) && counts[m] >= 1)
  }

  /**
   * The cache after one more occurrence of `m`: its count goes up by exactly one, every other line's
   * count stays, and the key list only grows, by `m` when it is new; "" counts nothing.
   */
  function Count(keys: seq<string>, counts: map<string, nat>, m: string): (r: (seq<string>, map<string, nat>))
    ensures m != [] ==> m in r.1 && r.1[m] == (if m in counts then counts[m] else 0) + 1
    ensures r.0 == if m == [] || m in counts then keys else keys + [m]
  {
    if m == [] then (keys, counts)
    else if m in counts then (keys, counts[m := counts[m] + 1])
    else (keys + [m], counts[m := 1])
  }

  /** Every other line keeps its count, and no line is counted that was not counted before. */
  lemma CountLeavesOthers(keys: seq<string>, counts: map<string, nat>, m: string, x: string)
    requires x != m
    ensures x in Count(keys, counts, m).1 <==> x in counts
    ensures x in counts ==> Count(keys, counts, m).1[x] == counts[x]
  {
  }

  /** Counting a line read from the journal keeps the cache's shape. */
  lemma CountKeepsShape(keys: seq<string>, counts: map<string, nat>, line: string)
    requires CacheShape(keys, counts)
    ensures CacheShape(Count(keys, counts, CountedText(line)).0, Count(keys, counts, CountedText(line)).1)
  {
    var m := CountedText(line);
    if m != [] {
      var l := RStripChar(line, '\n');
      NormalizedIsTidy(l);
      assert m != [] && Tidy(m);
      if m !in counts {
        var keys' := keys + [m];
        forall i, j | 0 <= i < j < |keys'| ensures keys'[i] != keys'[j] {
          if j == |keys| {
            assert keys'[i] == keys[i] && keys[i] in counts;
          }
        }
      }
    }
  }

  /** `repeat_cache`: normalised message to count, reported by `items()` in insertion order. */
  class RepeatCache {
    var keys: seq<string>
    var counts: map<string, nat>

    ghost predicate Valid()
      reads this
    {
      CacheShape(keys, counts)
    }

    /** `list(repeat_cache.items())`. */
    function Items(): (r: seq<(string, nat)>)
      reads this
      requires Valid()
      ensures |r| == |keys|
      ensures forall i | 0 <= i < |r| :: r[i].0 == keys[i] && r[i].1 == counts[keys[i]]
    {
      seq(|keys|, i reads this requires 0 <= i < |keys| && keys[i] in counts => (keys[i], counts[keys[i]]))
    }

    constructor ()
      ensures Valid() && keys == [] && counts == map[]
    {
      keys := [];
      counts := map[];
    }

    /** One line of the watcher loop: the line read is counted, and nothing happens for one that normalises to "". */
    method Observe(line: string)
      requires Valid()
      modifies this
      ensures Valid()
      ensures keys == Count(old(keys), old(counts), CountedText(line)).0
      ensures counts == Count(old(keys), old(counts), CountedText(line)).1
    {
      CountKeepsShape(keys, counts, line);
      var normalized := CountedText(line);
      var (keys', counts') := Count(keys, counts, normalized);
      keys, counts := keys', counts';
    }

    /** Taking the items and clearing the cache under the lock. */
    method Drain() returns (items: seq<(string, nat)>)
      requires Valid()
      modifies this
      ensures Valid() && keys == [] && counts == map[]
      ensures items == old(Items())
      ensures forall i | 0 <= i < |items| :: items[i].0 != [] && items[i].1 >= 1
    {
      items := Items();
      keys := [];
      counts := map[];
    }
  }

  // ---------------------------------------------------------------- repeat_flusher

  /** A tuple put on `log_queue`: the running id and the text (the `time.time()` stamp is left out). */
  datatype Emitted = Emitted(id: nat, text: string)

  /** The summary line for a message counted `count` times, stamped with the flush time `now`. */
  function Summary(msg: string, count: nat, now: string): string {
    "\U{23F1} " + now + " | \"" + msg + "\" repeated " + NatToString(count) + "x"
  }

  /** The periodic flush sends a message counted once as it is, any other as a summary. */
  function PeriodicText(msg: string, count: nat, now: string): string {
    if count == 1 then msg else Summary(msg, count, now)
  }

  /** One periodic flush of `items`, numbering from `nextId` and skipping empty messages. */
  function Periodic(items: seq<(string, nat)>, now: string, nextId: nat): seq<Emitted>
    decreases |items|
  {
    if items == [] then []
    else if items[0].0 == [] then Periodic(items[1..], now, nextId)
    else [Emitted(nextId, PeriodicText(items[0].0, items[0].1, now))] + Periodic(items[1..], now, nextId + 1)
  }

  /** The number of items with a non-empty message. */
  function Messages(items: seq<(string, nat)>): nat {
    if items == [] then 0 else (if items[0].0 == [] then 0 else 1) + Messages(items[1..])
  }

  /**
   * A periodic flush sends one tuple per non-empty message, with consecutive ids from `nextId`;
   * when every message is non-empty, the j-th tuple carries the j-th message or its summary.
   */
  lemma {:induction false} PeriodicSpec(items: seq<(string, nat)>, now: string, nextId: nat)
    ensures |Periodic(items, now, nextId)| == Messages(items)
    ensures forall j | 0 <= j < |Periodic(items, now, nextId)| :: Periodic(items, now, nextId)[j].id == nextId + j
    ensures (forall i | 0 <= i < |items| :: items[i].0 != []) ==>
      && |Periodic(items, now, nextId)| == |items|
      && forall j | 0 <= j < |items| :: Periodic(items, now, nextId)[j].text == PeriodicText(items[j].0, items[j].1, now)
    decreases |items|
  {
    if items != [] {
      var next := if items[0].0 == [] then nextId else nextId + 1;
      PeriodicSpec(items[1..], now, next);
      if (forall i | 0 <= i < |items| :: items[i].0 != []) {
        assert forall i | 0 <= i < |items[1..]| :: items[1..][i].0 == items[i + 1].0;
      }
    }
  }

  /** The shutdown flush's text: a summary needs the last periodic flush's time, unbound if none ran. */
  function FinalText(msg: string, count: nat, now: Option<string>): Option<string> {
    if count > 1 then (if now.Some? then Some(Summary(msg, count, now.value)) else None) else Some(msg)
  }

  /** What the shutdown flush sends, and whether it stopped on the unbound time. */
  datatype FinalOutcome = FinalOutcome(sent: seq<Emitted>, crashed: bool)

  function FinalFlush(items: seq<(string, nat)>, now: Option<string>, nextId: nat): FinalOutcome
    decreases |items|
  {
    if items == [] then FinalOutcome([], false)
    else if items[0].0 == [] then FinalFlush(items[1..], now, nextId)
    else
      match FinalText(items[0].0, items[0].1, now)
      case None => FinalOutcome([], true)
      case Some(text) =>
        var rest := FinalFlush(items[1..], now, nextId + 1);
        FinalOutcome([Emitted(nextId, text)] + rest.sent, rest.crashed)
  }

  /** Once a periodic flush has run, the shutdown flush sends what a periodic flush would. */
  lemma {:induction false} FinalMatchesPeriodic(items: seq<(string, nat)>, now: string, nextId: nat)
    requires forall i | 0 <= i < |items| :: items[i].1 >= 1
    ensures FinalFlush(items, Some(now), nextId) == FinalOutcome(Periodic(items, now, nextId), false)
    decreases |items|
  {
    if items != [] {
      assert forall i | 0 <= i < |items[1..]| :: items[1..][i] == items[i + 1];
      FinalMatchesPeriodic(items[1..], now, if items[0].0 == [] then nextId else nextId + 1);
    }
  }

  /**
   * The shutdown flush raises exactly when no periodic flush ran and some non-empty message was
   * counted more than once; the tuples it sends before that have consecutive ids.
   */
  lemma {:induction false} FinalCrash(items: seq<(string, nat)>, now: Option<string>, nextId: nat)
    ensures FinalFlush(items, now, nextId).crashed
      <==> now.None? && exists i | 0 <= i < |items| :: items[i].0 != [] && items[i].1 > 1
    ensures forall j | 0 <= j < |FinalFlush(items, now, nextId).sent| :: FinalFlush(items, now, nextId).sent[j].id == nextId + j
    decreases |items|
  {
    if items != [] {
      FinalCrash(items[1..], now, if items[0].0 == [] then nextId else nextId + 1);
      assert forall i | 1 <= i < |items| :: items[1..][i - 1] == items[i];
      if now.None? && items[0].0 != [] && items[0].1 > 1 {
        assert FinalFlush(items, now, nextId).crashed;
      } else if exists i | 0 <= i < |items| :: items[i].0 != [] && items[i].1 > 1 && now.None? {
        var i :| 0 <= i < |items| && items[i].0 != [] && items[i].1 > 1 && now.None?;
        assert i > 0 && items[1..][i - 1] == items[i];
      }
    }
  }

  /** The loop of one periodic flush. */
  method EmitPeriodic(items: seq<(string, nat)>, now: string, nextId: nat) returns (out: seq<Emitted>)
    ensures out == Periodic(items, now, nextId)
  {
    out := [];
    var id := nextId;
    for i := 0 to |items|
      invariant id == nextId + |out|
      invariant out + Periodic(items[i..], now, id) == Periodic(items, now, nextId)
    {
      assert items[i..][1..] == items[i + 1..];
      var (msg, count) := items[i];
      if msg == [] {
        continue;
      }
      var text := if count == 1 then msg else Summary(msg, count, now);
      AppendAssoc(out, [Emitted(id, text)], Periodic(items[i + 1..], now, id + 1));
      out := out + [Emitted(id, text)];
      id := id + 1;
    }
    assert out + [] == out;
  }

  /** The loop of the shutdown flush, which stops where formatting the summary raises. */
  method EmitFinal(items: seq<(string, nat)>, now: Option<string>, nextId: nat) returns (out: seq<Emitted>, crashed: bool)
    ensures FinalOutcome(out, crashed) == FinalFlush(items, now, nextId)
  {
    out := [];
    var id := nextId;
    var i := 0;
    while i < |items|
      invariant i <= |items|
      invariant id == nextId + |out|
      invariant var rest := FinalFlush(items[i..], now, id);
        out + rest.sent == FinalFlush(items, now, nextId).sent && rest.crashed == FinalFlush(items, now, nextId).crashed
    {
      assert items[i..][1..] == items[i + 1..];
      var (msg, count) := items[i];
      if msg != [] {
        if count > 1 && now.None? {
          assert out == FinalFlush(items, now, nextId).sent;
          return out, true;
        }
        var text := if count > 1 then Summary(msg, count, now.value) else msg;
        AppendAssoc(out, [Emitted(id, text)], FinalFlush(items[i + 1..], now, id + 1).sent);
        out := out + [Emitted(id, text)];
        id := id + 1;
      }
      i := i + 1;
    }
    assert out + [] == out;
    crashed := false;
  }

  /** `repeat_flusher`'s own state: the running id, the local `now` and what it has put on `log_queue`. */
  class RepeatFlusher {
    var nextId: nat
    /** The time of the last periodic flush; `None` while the local `now` is still unbound. */
    var now: Option<string>
    var sent: seq<Emitted>

    /** The ids sent so far are 0, 1, 2, ... in order, and `next_id` is the next one. */
    ghost predicate Valid()
      reads this
    {
      nextId == |sent| && forall j | 0 <= j < |sent| :: sent[j].id == j
    }

    constructor ()
      ensures Valid() && nextId == 0 && now == None && sent == []
    {
      nextId := 0;
      now := None;
      sent := [];
    }

    /** One round after the interval elapsed: take the cache's items and send them. */
    method Tick(cache: RepeatCache, clock: string)
      requires Valid() && cache.Valid()
      modifies this, cache
      ensures Valid() && cache.Valid() && cache.keys == [] && cache.counts == map[]
      ensures now == Some(clock)
      ensures sent == old(sent) + Periodic(old(cache.Items()), clock, old(nextId))
    {
      var items := cache.Drain();
      var out := EmitPeriodic(items, clock, nextId);
      PeriodicSpec(items, clock, nextId);
      sent := sent + out;
      nextId := nextId + |out|;
      now := Some(clock);
    }

    /** The final flush on shutdown; `crashed` is the `UnboundLocalError` that ends the thread. */
    method Shutdown(cache: RepeatCache) returns (crashed: bool)
      requires Valid() && cache.Valid()
      modifies this, cache
      ensures Valid() && cache.Valid() && cache.keys == [] && cache.counts == map[]
      ensures var f := FinalFlush(old(cache.Items()), old(now), old(nextId));
        sent == old(sent) + f.sent && crashed == f.crashed
    {
      var items := cache.Drain();
      var out;
      out, crashed := EmitFinal(items, now, nextId);
      FinalCrash(items, now, nextId);
      sent := sent + out;
      nextId := nextId + |out|;
    }
  }

  /** Successive flushes number their tuples on from where the last one stopped. */
  lemma ConsecutiveAcrossFlushes(a: seq<(string, nat)>, b: seq<(string, nat)>, now1: string, now2: string, nextId: nat)
    ensures var first := Periodic(a, now1, nextId);
      var both := first + Periodic(b, now2, nextId + |first|);
      forall j | 0 <= j < |both| :: both[j].id == nextId + j
  {
    var first := Periodic(a, now1, nextId);
    PeriodicSpec(a, now1, nextId);
    PeriodicSpec(b, now2, nextId + |first|);
  }

  // ---------------------------------------------------------------- embed_worker

  /** One entry of `metadata`. */
  datatype Meta = Meta(id: nat, text: string, timestamp: real)

  /** The FAISS index and the `metadata` list beside it. */
  class LogIndex {
    /** `index.ntotal`: the vectors added so far. */
    var ntotal: nat
    var metadata: seq<Meta>

    /** One metadata entry per vector. */
    ghost predicate Valid()
      reads this
    {
      ntotal == |metadata|
    }

    constructor ()
      ensures Valid() && ntotal == 0 && metadata == []
    {
      ntotal := 0;
      metadata := [];
    }
  }

  /** `zip(batch_ids, batch_texts, batch_timestamps)` as metadata entries. */
  function Zip(ids: seq<nat>, texts: seq<string>, stamps: seq<real>): (r: seq<Meta>)
    requires |ids| == |texts| == |stamps|
    ensures |r| == |texts|
  {
    if texts == [] then []
    else Zip(ids[..|ids| - 1], texts[..|texts| - 1], stamps[..|stamps| - 1]) + [Meta(ids[|ids| - 1], texts[|texts| - 1], stamps[|stamps| - 1])]
  }

  lemma {:induction false} ZipAt(ids: seq<nat>, texts: seq<string>, stamps: seq<real>)
    requires |ids| == |texts| == |stamps|
    ensures forall i | 0 <= i < |texts| :: Zip(ids, texts, stamps)[i] == Meta(ids[i], texts[i], stamps[i])
  {
    if texts != [] {
      var n := |texts| - 1;
      ZipAt(ids[..n], texts[..n], stamps[..n]);
    }
  }

  /** The metadata loop of `process_batch`, in batch order. */
  method ZipBatch(ids: seq<nat>, texts: seq<string>, stamps: seq<real>) returns (metas: seq<Meta>)
    requires |ids| == |texts| == |stamps|
    ensures metas == Zip(ids, texts, stamps)
  {
    metas := [];
    for i := 0 to |texts|
      invariant metas == Zip(ids[..i], texts[..i], stamps[..i])
    {
      assert ids[..i + 1][..i] == ids[..i] && texts[..i + 1][..i] == texts[..i] && stamps[..i + 1][..i] == stamps[..i];
      metas := metas + [Meta(ids[i], texts[i], stamps[i])];
    }
    assert ids[..|ids|] == ids && texts[..|texts|] == texts && stamps[..|stamps|] == stamps;
  }

  /** `embed_worker` and its three batch lists. */
  class EmbedWorker {
    const index: LogIndex
    var batchIds: seq<nat>
    var batchTexts: seq<string>
    var batchTimestamps: seq<real>

    /** The three lists stay in step, below a full batch, and the index keeps one entry per vector. */
    ghost predicate Valid()
      reads this, index
    {
      |batchIds| == |batchTexts| == |batchTimestamps| < BatchSize && index.Valid()
    }

    /** The batch as it would be appended to `metadata`. */
    ghost function Pending(): seq<Meta>
      reads this
      requires |batchIds| == |batchTexts| == |batchTimestamps|
    {
      Zip(batchIds, batchTexts, batchTimestamps)
    }

    constructor (index: LogIndex)
      requires index.Valid()
      ensures Valid() && this.index == index
      ensures batchIds == [] && batchTexts == [] && batchTimestamps == []
    {
      this.index := index;
      batchIds := [];
      batchTexts := [];
      batchTimestamps := [];
    }

    /**
     * `process_batch`: nothing at all for an empty batch; otherwise the batch is added only when
     * embedding it succeeds (`embedOk`), and the three lists are cleared either way.
     */
    method ProcessBatch(embedOk: bool)
      requires |batchIds| == |batchTexts| == |batchTimestamps| && index.Valid()
      modifies this, index
      ensures index.Valid()
      ensures batchIds == [] && batchTexts == [] && batchTimestamps == []
      ensures index.metadata == old(index.metadata) + (if embedOk then old(Pending()) else [])
    {
      if batchTexts == [] {
        batchIds, batchTimestamps := [], [];
        return;
      }
      if embedOk {
        index.ntotal := index.ntotal + |batchTexts|;
        var metas := ZipBatch(batchIds, batchTexts, batchTimestamps);
        index.metadata := index.metadata + metas;
      }
      batchIds, batchTexts, batchTimestamps := [], [], [];
    }

    /**
     * One turn of the worker loop: `item` is what `log_queue.get` returned, `None` when it timed
     * out. A timeout flushes the partial batch; a line joins the batch, which is flushed when full.
     */
    method Receive(item: Option<Meta>, embedOk: bool)
      requires Valid()
      modifies this, index
      ensures Valid()
      ensures item.None? ==>
        && batchTexts == []
        && index.metadata == old(index.metadata) + (if embedOk then old(Pending()) else [])
      ensures item.Some? && |old(batchTexts)| + 1 < BatchSize ==>
        && Pending() == old(Pending()) + [item.value]
        && index.metadata == old(index.metadata)
      ensures item.Some? && |old(batchTexts)| + 1 == BatchSize ==>
        && batchTexts == []
        && index.metadata == old(index.metadata) + (if embedOk then old(Pending()) + [item.value] else [])
    {
      if item.None? {
        ProcessBatch(embedOk);
        return;
      }
      var Meta(id, text, ts) := item.value;
      batchIds := batchIds + [id];
      batchTexts := batchTexts + [text];
      batchTimestamps := batchTimestamps + [ts];
      if |batchTexts| >= BatchSize {
        ProcessBatch(embedOk);
      }
    }
  }

  // ---------------------------------------------------------------- search_query

  const NoLogsYet: string := "No logs indexed yet. Please wait for data to accumulate."

  /** The hits `search_query` keeps, in rank order: those whose index names a metadata entry. */
  function Shown(hits: seq<(real, int)>, metadata: seq<Meta>): seq<(real, Meta)> {
    if hits == [] then []
    else
      var init := Shown(hits[..|hits| - 1], metadata);
      var (dist, idx) := hits[|hits| - 1];
      if idx < 0 || idx >= |metadata| then init else init + [(dist, metadata[idx])]
  }

  /** The line for one hit: the text alone in raw mode, else `pretty` with its timestamp and distance. */
  function Render(hit: (real, Meta), displayMode: string, pretty: (Meta, real) -> string): string {
    if displayMode == "raw" then hit.1.text else pretty(hit.1, hit.0)
  }

  function RenderAll(shown: seq<(real, Meta)>, displayMode: string, pretty: (Meta, real) -> string): (r: seq<string>)
    ensures |r| == |shown|
    ensures forall i | 0 <= i < |shown| :: r[i] == Render(shown[i], displayMode, pretty)
  {
    seq(|shown|, i requires 0 <= i < |shown| => Render(shown[i], displayMode, pretty))
  }

  /**
   * `search_query`. `failure` is the exception encoding the query raised, if any;
   * `neighbours(n)` is what `index.search` returns for `n` wanted hits, as (distance, index) pairs.
   */
  function SearchAnswer(ix: seq<Meta>, ntotal: nat, k: int, displayMode: string, failure: Option<string>,
                        neighbours: int -> seq<(real, int)>, pretty: (Meta, real) -> string): seq<string> {
    if failure.Some? then ["Search error: " + failure.value]
    else if ntotal == 0 then [NoLogsYet]
    else RenderAll(Shown(neighbours(Min(k, ntotal)), ix), displayMode, pretty)
  }

  /** The output loop of `search_query`. */
  method SearchQuery(index: LogIndex, k: int, displayMode: string, failure: Option<string>,
                     neighbours: int -> seq<(real, int)>, pretty: (Meta, real) -> string) returns (out: seq<string>)
    ensures out == SearchAnswer(index.metadata, index.ntotal, k, displayMode, failure, neighbours, pretty)
  {
    if failure.Some? {
      return ["Search error: " + failure.value];
    }
    if index.ntotal == 0 {
      return [NoLogsYet];
    }
    var kAdjusted := Min(k, index.ntotal);
    var hits := neighbours(kAdjusted);
    var shown: seq<(real, Meta)> := [];
    out := [];
    for i := 0 to |hits|
      invariant shown == Shown(hits[..i], index.metadata)
      invariant out == RenderAll(shown, displayMode, pretty)
    {
      assert hits[..i + 1][..i] == hits[..i];
      var (dist, idx) := hits[i];
      if idx < 0 || idx >= |index.metadata| {
        continue;
      }
      var meta := index.metadata[idx];
      shown := shown + [(dist, meta)];
      out := out + [if displayMode == "raw" then meta.text else pretty(meta, dist)];
    }
    assert hits[..|hits|] == hits;
  }

  /** The hits with a non-negative index: the ones FAISS did not pad with -1. */
  function Found(hits: seq<(real, int)>): nat {
    if hits == [] then 0 else Found(hits[..|hits| - 1]) + (if hits[|hits| - 1].1 >= 0 then 1 else 0)
  }

  /** Keeping hits drops exactly those outside the metadata; when FAISS names only stored vectors, only the padding. */
  lemma {:induction false} ShownSpec(hits: seq<(real, int)>, metadata: seq<Meta>)
    ensures |Shown(hits, metadata)| <= |hits|
    ensures forall j | 0 <= j < |Shown(hits, metadata)| :: Shown(hits, metadata)[j].1 in metadata
    ensures (forall i | 0 <= i < |hits| :: hits[i].1 < |metadata|) ==> |Shown(hits, metadata)| == Found(hits)
  {
    if hits != [] {
      var n := |hits| - 1;
      ShownSpec(hits[..n], metadata);
      assert forall i | 0 <= i < n :: hits[..n][i] == hits[i];
    }
  }

  /**
   * `search_query` reports an encoding error or an empty index in one line; otherwise it asks for
   * `min(k, ntotal)` hits and prints at most as many lines as the index returned hits, each one
   * naming a stored entry.
   */
  lemma SearchAnswerSpec(ix: seq<Meta>, ntotal: nat, k: int, displayMode: string, failure: Option<string>,
                         neighbours: int -> seq<(real, int)>, pretty: (Meta, real) -> string)
    ensures var out := SearchAnswer(ix, ntotal, k, displayMode, failure, neighbours, pretty);
      && (failure.Some? ==> out == ["Search error: " + failure.value])
      && (failure.None? && ntotal == 0 ==> out == [NoLogsYet])
      && (failure.None? && ntotal > 0 ==> |out| <= |neighbours(Min(k, ntotal))|)
      && (failure.None? && ntotal > 0 && displayMode == "raw" ==>
            forall j | 0 <= j < |out| :: out[j] in Texts(ix))
      && (failure.None? && ntotal > 0 && |neighbours(Min(k, ntotal))| <= Min(k, ntotal) ==> |out| <= k)
  {
    if failure.None? && ntotal > 0 {
      var shown := Shown(neighbours(Min(k, ntotal)), ix);
      ShownSpec(neighbours(Min(k, ntotal)), ix);
      var out := RenderAll(shown, displayMode, pretty);
      assert SearchAnswer(ix, ntotal, k, displayMode, failure, neighbours, pretty) == out;
      if displayMode == "raw" {
        RawLines(shown, ix, pretty);
      }
    }
  }

  /** The texts of the stored entries, in index order. */
  function Texts(ix: seq<Meta>): (r: seq<string>)
    ensures |r| == |ix| && forall i | 0 <= i < |ix| :: r[i] == ix[i].text
  {
    seq(|ix|, i requires 0 <= i < |ix| => ix[i].text)
  }

  /** In raw mode every printed line is the text of a stored entry. */
  lemma RawLines(shown: seq<(real, Meta)>, ix: seq<Meta>, pretty: (Meta, real) -> string)
    requires forall j | 0 <= j < |shown| :: shown[j].1 in ix
    ensures forall j | 0 <= j < |shown| :: RenderAll(shown, "raw", pretty)[j] in Texts(ix)
  {
    var out := RenderAll(shown, "raw", pretty);
    forall j | 0 <= j < |shown| ensures out[j] in Texts(ix) {
      var i :| 0 <= i < |ix| && ix[i] == shown[j].1;
      assert Texts(ix)[i] == out[j];
    }
  }

  // ---------------------------------------------------------------- parse_query_options

  /** The options as the loop holds them: `k`, `display_mode` and the plain words so far. */
  datatype Options = Options(k: int, display: string, plain: seq<string>)

  /** The effect of one word on the options. */
  function ScanWord(o: Options, part: string): Options {
    if StartsWith(part, "k=") then
      match ParseInt(part[2..])
      case None => o
      case Some(v) => o.(k := if v <= 0 then DefaultK else v)
    else if StartsWith(part, "display=") then
      var mode := Lower(part[8..]);
      if mode == "raw" || mode == "pretty" then o.(display := mode) else o
    else o.(plain := o.plain + [part])
  }

  function ScanWords(parts: seq<string>): Options {
    if parts == [] then Options(DefaultK, "pretty", [])
    else ScanWord(ScanWords(parts[..|parts| - 1]), parts[|parts| - 1])
  }

  /** `parse_query_options`: the query text, `k` and the display mode. */
  function QueryOptions(line: string): (string, int, string) {
    var o := ScanWords(Words(line));
    (Join(o.plain, " "), o.k, o.display)
  }

  /** `parse_query_options` with its loop over the words of the line. */
  method ParseQueryOptions(line: string) returns (queryText: string, k: int, displayMode: string)
    ensures (queryText, k, displayMode) == QueryOptions(line)
  {
    k := DefaultK;
    displayMode := "pretty";
    var parts := Words(line);
    var filtered: seq<string> := [];
    for i := 0 to |parts|
      invariant Options(k, displayMode, filtered) == ScanWords(parts[..i])
    {
      assert parts[..i + 1][..i] == parts[..i];
      var part := parts[i];
      if StartsWith(part, "k=") {
        var v := ParseInt(part[2..]);
        if v.Some? {
          k := v.value;
          if k <= 0 {
            k := DefaultK;
          }
        }
      } else if StartsWith(part, "display=") {
        var mode := Lower(part[8..]);
        if mode == "raw" || mode == "pretty" {
          displayMode := mode;
        }
      } else {
        filtered := filtered + [part];
      }
    }
    assert parts[..|parts|] == parts;
    queryText := Join(filtered, " ");
  }

  /** The value the last `k=` word that parses as an integer gives, if there is one. */
  function LastK(parts: seq<string>): Option<int> {
    if parts == [] then None
    else
      var p := parts[|parts| - 1];
      if StartsWith(p, "k=") && ParseInt(p[2..]).Some? then ParseInt(p[2..]) else LastK(parts[..|parts| - 1])
  }

  /** The mode the last `display=` word naming a known mode gives, if there is one. */
  function LastDisplay(parts: seq<string>): Option<string> {
    if parts == [] then None
    else
      var p := parts[|parts| - 1];
      if !StartsWith(p, "k=") && StartsWith(p, "display=") && Lower(p[8..]) in {"raw", "pretty"} then Some(Lower(p[8..]))
      else LastDisplay(parts[..|parts| - 1])
  }

  /** The words that are neither a `k=` nor a `display=` option, in order. */
  function Plain(parts: seq<string>): seq<string> {
    if parts == [] then []
    else (if StartsWith(parts[0], "k=") || StartsWith(parts[0], "display=") then [] else [parts[0]]) + Plain(parts[1..])
  }

  lemma {:induction false} PlainSnoc(parts: seq<string>, p: string)
    ensures Plain(parts + [p]) == Plain(parts) + (if StartsWith(p, "k=") || StartsWith(p, "display=") then [] else [p])
  {
    if parts != [] {
      assert (parts + [p])[1..] == parts[1..] + [p];
      PlainSnoc(parts[1..], p);
    } else {
      assert [p][1..] == [];
    }
  }

  /**
   * `k` is 5 unless a `k=` word parses, and then the last such word decides: its value if positive,
   * else 5. The mode is the last valid `display=` word's, lower-cased, else pretty. The query text is
   * the remaining words, in order.
   */
  lemma {:induction false} ScanWordsSpec(parts: seq<string>)
    ensures ScanWords(parts).k == match LastK(parts) case None => DefaultK case Some(v) => if v <= 0 then DefaultK else v
    ensures ScanWords(parts).k > 0
    ensures ScanWords(parts).display == match LastDisplay(parts) case None => "pretty" case Some(m) => m
    ensures ScanWords(parts).display in {"raw", "pretty"}
    ensures ScanWords(parts).plain == Plain(parts)
  {
    if parts != [] {
      var init := parts[..|parts| - 1];
      var p := parts[|parts| - 1];
      ScanWordsSpec(init);
      assert parts == init + [p];
      PlainSnoc(init, p);
    }
  }
}
