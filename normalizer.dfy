/**
 * The normaliser's post-processing of a mined template (normalizer/core.py): parameter extraction,
 * priority labels, the "already printed" gate, the desktop alert and the record pushed downstream.
 * The Drain3 miner itself is an oracle `miner: string -> Mined`.
 */
module Normalizer {
  import opened Wrappers
  import opened Text
  import opened Events
  import Lists

  /** The two wildcard spellings `_extract_params` turns into capture groups. */
  const AnyMarker: string := "<*>"
  const NumMarker: string := "<NUM>"

  /**
   * The regular expression built from a template: `re.escape(template)` with every `<*>` and every
   * `<NUM>` replaced by the lazy group `(.*?)`. Escaped text matches itself, one character at a time.
   */
  datatype Piece = Lit(c: char) | Wild

  /**
   * Left-to-right scan for the markers. The markers cannot overlap each other or themselves, so this
   * single scan finds the same occurrences as the two successive `str.replace` passes.
   */
  function Compile(template: string): seq<Piece>
    decreases |template|
  {
    if template == [] then []
    else if StartsWith(template, AnyMarker) then [Wild] + Compile(template[|AnyMarker|..])
    else if StartsWith(template, NumMarker) then [Wild] + Compile(template[|NumMarker|..])
    else [Lit(template[0])] + Compile(template[1..])
  }

  /** Number of capture groups, i.e. of `<*>`/`<NUM>` markers. */
  function WildCount(pat: seq<Piece>): nat {
    if pat == [] then 0 else (if pat[0] == Wild then 1 else 0) + WildCount(pat[1..])
  }

  /** The text obtained by putting `params` into the groups of `pat`, in order. */
  function Rebuild(pat: seq<Piece>, params: seq<string>): string
    requires |params| == WildCount(pat)
  {
    if pat == [] then []
    else match pat[0]
      case Lit(c) => [c] + Rebuild(pat[1..], params)
      case Wild => params[0] + Rebuild(pat[1..], params[1..])
  }

  /** `$` without MULTILINE: the end of the text, or just before a final newline. */
  predicate AtEnd(s: string, pos: nat)
    requires pos <= |s|
  {
    pos == |s| || (pos + 1 == |s| && s[pos] == '\n')
  }

  /**
   * Backtracking match of `pat` against `s[pos..]` followed by `$`, in the order Python's `re` tries:
   * each lazy group first takes nothing, then one more character at a time (`.` never takes '\n').
   * The result is the tuple `match.groups()`.
   */
  function MatchFrom(pat: seq<Piece>, s: string, pos: nat): Option<seq<string>>
    requires pos <= |s|
    decreases |pat|, |s| - pos + 1
  {
    if pat == [] then (if AtEnd(s, pos) then Some([]) else None)
    else match pat[0]
      case Lit(c) => if pos < |s| && s[pos] == c then MatchFrom(pat[1..], s, pos + 1) else None
      case Wild => TryWild(pat[1..], s, pos, pos)
  }

  /** The lazy group opened at `start` currently spans `s[start..end]`. */
  function TryWild(rest: seq<Piece>, s: string, start: nat, end: nat): Option<seq<string>>
    requires start <= end <= |s|
    decreases |rest| + 1, |s| - end
  {
    match MatchFrom(rest, s, end)
    case Some(ps) => Some([s[start..end]] + ps)
    case None => if end < |s| && s[end] != '\n' then TryWild(rest, s, start, end + 1) else None
  }

  predicate NoNewline(q: string) {
    forall i | 0 <= i < |q| :: q[i] != '\n'
  }

  /** `params` fill the groups of `pat` so that the result is `s` (or `s` without a final newline). */
  predicate Decomposes(pat: seq<Piece>, params: seq<string>, s: string) {
    && |params| == WildCount(pat)
    && (forall j | 0 <= j < |params| :: NoNewline(params[j]))
    && (Rebuild(pat, params) == s || Rebuild(pat, params) + "\n" == s)
  }

  /** Soundness: whatever the matcher returns fills the template back into the matched text. */
  lemma {:induction false} MatchSound(pat: seq<Piece>, s: string, pos: nat)
    requires pos <= |s|
    ensures MatchFrom(pat, s, pos).Some? ==> Decomposes(pat, MatchFrom(pat, s, pos).value, s[pos..])
    decreases |pat|, |s| - pos + 1
  {
    if pat != [] && MatchFrom(pat, s, pos).Some? {
      match pat[0]
      case Lit(c) =>
        MatchSound(pat[1..], s, pos + 1);
        assert s[pos..] == [s[pos]] + s[pos + 1..];
      case Wild =>
        TryWildSound(pat[1..], s, pos, pos);
        assert pat == [Wild] + pat[1..];
    }
  }

  lemma {:induction false} TryWildSound(rest: seq<Piece>, s: string, start: nat, end: nat)
    requires start <= end <= |s| && NoNewline(s[start..end])
    ensures TryWild(rest, s, start, end).Some? ==>
      Decomposes([Wild] + rest, TryWild(rest, s, start, end).value, s[start..])
    decreases |rest| + 1, |s| - end
  {
    var pat := [Wild] + rest;
    assert pat[0] == Wild && pat[1..] == rest;
    match MatchFrom(rest, s, end)
    case Some(ps) =>
      MatchSound(rest, s, end);
      var r := [s[start..end]] + ps;
      assert r[1..] == ps;
      assert s[start..] == s[start..end] + s[end..];
      assert Rebuild(pat, r) == s[start..end] + Rebuild(rest, ps);
    case None =>
      if end < |s| && s[end] != '\n' {
        assert s[start..end + 1] == s[start..end] + [s[end]];
        TryWildSound(rest, s, start, end + 1);
      }
  }

  /** A lazy group that can reach `stop`, where the rest matches, makes the whole attempt succeed. */
  lemma {:induction false} TryWildReaches(rest: seq<Piece>, s: string, start: nat, end: nat, stop: nat)
    requires start <= end <= stop <= |s|
    requires NoNewline(s[end..stop])
    requires MatchFrom(rest, s, stop).Some?
    ensures TryWild(rest, s, start, end).Some?
    decreases stop - end
  {
    if MatchFrom(rest, s, end).None? {
      assert end != stop;
      assert s[end..stop][0] == s[end];
      assert s[end + 1..stop] == s[end..stop][1..];
      TryWildReaches(rest, s, start, end + 1, stop);
    }
  }

  /** Completeness: if the text fits the template at all, the anchored match does not fail. */
  lemma {:induction false} MatchComplete(pat: seq<Piece>, s: string, pos: nat, params: seq<string>)
    requires pos <= |s|
    requires Decomposes(pat, params, s[pos..])
    ensures MatchFrom(pat, s, pos).Some?
    decreases |pat|
  {
    if pat != [] {
      match pat[0]
      case Lit(c) =>
        var tail := Rebuild(pat[1..], params);
        assert Rebuild(pat, params) == [c] + tail;
        assert s[pos..] == [c] + tail || s[pos..] == [c] + (tail + "\n");
        assert s[pos + 1..] == s[pos..][1..];
        MatchComplete(pat[1..], s, pos + 1, params);
      case Wild =>
        var tail := Rebuild(pat[1..], params[1..]);
        assert Rebuild(pat, params) == params[0] + tail;
        var e := pos + |params[0]|;
        assert s[pos..] == params[0] + tail || s[pos..] == params[0] + (tail + "\n");
        assert s[pos..e] == params[0];
        assert s[e..] == s[pos..][|params[0]|..];
        assert forall j | 0 <= j < |params[1..]| :: params[1..][j] == params[j + 1];
        MatchComplete(pat[1..], s, e, params[1..]);
        TryWildReaches(pat[1..], s, pos, pos, e);
    }
  }

  /** `_extract_params`' fallback: raw tokens that differ from the template token at the same position. */
  function Differing(t: seq<string>, r: seq<string>): seq<string>
    requires |t| == |r|
  {
    if t == [] then [] else (if t[0] != r[0] then [r[0]] else []) + Differing(t[1..], r[1..])
  }

  /** The fallback gives up (no parameters) when the token counts differ. */
  function TokenDiff(t: seq<string>, r: seq<string>): seq<string> {
    if |t| == |r| then Differing(t, r) else []
  }

  /** `LogNormalizer._extract_params(template, raw_msg)`. */
  function ExtractParams(template: string, raw: string): seq<string> {
    match MatchFrom(Compile(template), raw, 0)
    case Some(ps) => ps
    case None => TokenDiff(Words(template), Words(raw))
  }

  /**
   * Whenever the raw message fits the template, the anchored match is the path taken: there is one
   * parameter per marker, and putting them back in order rebuilds the message.
   */
  lemma AnchoredExtraction(template: string, raw: string, fit: seq<string>)
    requires Decomposes(Compile(template), fit, raw)
    ensures MatchFrom(Compile(template), raw, 0).Some?
    ensures Decomposes(Compile(template), ExtractParams(template, raw), raw)
    ensures |ExtractParams(template, raw)| == WildCount(Compile(template))
  {
    assert raw[0..] == raw;
    MatchComplete(Compile(template), raw, 0, fit);
    MatchSound(Compile(template), raw, 0);
  }

  /** Conversely, the fallback runs only when no filling of the template yields the message. */
  lemma FallbackExtraction(template: string, raw: string)
    requires MatchFrom(Compile(template), raw, 0).None?
    ensures forall ps :: !Decomposes(Compile(template), ps, raw)
    ensures ExtractParams(template, raw) == TokenDiff(Words(template), Words(raw))
  {
    assert raw[0..] == raw;
    forall ps | Decomposes(Compile(template), ps, raw) ensures false {
      MatchComplete(Compile(template), raw, 0, ps);
    }
  }

  /**
   * Fallback with equal token counts: no parameters exactly when the token lists agree, and every
   * parameter is a raw token sitting where the template has a different token.
   */
  lemma {:induction false} DifferingSpec(t: seq<string>, r: seq<string>)
    requires |t| == |r|
    ensures Differing(t, r) == [] <==> t == r
    ensures forall x | x in Differing(t, r) :: exists k | 0 <= k < |r| :: r[k] == x && t[k] != x
  {
    if t != [] {
      DifferingSpec(t[1..], r[1..]);
      if t[1..] == r[1..] && t[0] == r[0] {
        assert t == [t[0]] + t[1..] && r == [r[0]] + r[1..];
      }
      forall x | x in Differing(t, r) ensures exists k | 0 <= k < |r| :: r[k] == x && t[k] != x {
        if !(t[0] != r[0] && x == r[0]) {
          assert x in Differing(t[1..], r[1..]);
          var k :| 0 <= k < |r[1..]| && r[1..][k] == x && t[1..][k] != x;
          assert r[k + 1] == x && t[k + 1] != x;
        }
      }
    }
  }

  /** The positions, counted from `off`, where the two token lists differ, in increasing order. */
  function DiffPositions(t: seq<string>, r: seq<string>, off: nat): seq<nat>
    requires |t| == |r|
  {
    if t == [] then [] else (if t[0] != r[0] then [off] else []) + DiffPositions(t[1..], r[1..], off + 1)
  }

  /** The positions lie in the window starting at `off` and increase strictly. */
  lemma {:induction false} DiffPositionsIncrease(t: seq<string>, r: seq<string>, off: nat)
    requires |t| == |r|
    ensures forall i | 0 <= i < |DiffPositions(t, r, off)| :: off <= DiffPositions(t, r, off)[i] < off + |t|
    ensures forall i, j | 0 <= i < j < |DiffPositions(t, r, off)| :: DiffPositions(t, r, off)[i] < DiffPositions(t, r, off)[j]
    decreases |t|
  {
    if t != [] {
      DiffPositionsIncrease(t[1..], r[1..], off + 1);
      var tail := DiffPositions(t[1..], r[1..], off + 1);
      var head: seq<nat> := if t[0] != r[0] then [off] else [];
      var ps := head + tail;
      assert DiffPositions(t, r, off) == ps;
      forall i | 0 <= i < |ps| ensures off <= ps[i] < off + |t| {
        if i >= |head| {
          assert ps[i] == tail[i - |head|];
        }
      }
      forall i, j | 0 <= i < j < |ps| ensures ps[i] < ps[j] {
        assert ps[j] == tail[j - |head|];
        if i >= |head| {
          assert ps[i] == tail[i - |head|];
        }
      }
    }
  }

  /** A position is listed exactly when the tokens there differ. */
  lemma {:induction false} DiffPositionsExact(t: seq<string>, r: seq<string>, off: nat)
    requires |t| == |r|
    ensures forall k | 0 <= k < |t| :: t[k] != r[k] <==> off + k in DiffPositions(t, r, off)
    decreases |t|
  {
    if t != [] {
      DiffPositionsExact(t[1..], r[1..], off + 1);
      DiffPositionsIncrease(t[1..], r[1..], off + 1);
      var tail := DiffPositions(t[1..], r[1..], off + 1);
      var head: seq<nat> := if t[0] != r[0] then [off] else [];
      var ps := head + tail;
      assert DiffPositions(t, r, off) == ps;
      assert off !in tail by {
        forall i | 0 <= i < |tail| ensures tail[i] != off {
        }
      }
      assert t[0] != r[0] <==> off + 0 in ps;
      forall k | 0 < k < |t| ensures t[k] != r[k] <==> off + k in ps {
        assert t[1..][k - 1] == t[k] && r[1..][k - 1] == r[k];
        assert (off + 1) + (k - 1) == off + k;
        assert off + k in ps <==> off + k in tail;
      }
    }
  }

  /** The fallback parameters are the raw tokens at the listed positions, in the same order. */
  lemma {:induction false} DifferingPicks(t: seq<string>, r: seq<string>, off: nat)
    requires |t| == |r|
    ensures |Differing(t, r)| == |DiffPositions(t, r, off)|
    ensures forall i | 0 <= i < |DiffPositions(t, r, off)| ::
      off <= DiffPositions(t, r, off)[i] < off + |r| && Differing(t, r)[i] == r[DiffPositions(t, r, off)[i] - off]
    decreases |t|
  {
    if t != [] {
      DifferingPicks(t[1..], r[1..], off + 1);
      var tail := DiffPositions(t[1..], r[1..], off + 1);
      var head: seq<nat> := if t[0] != r[0] then [off] else [];
      var ps := head + tail;
      assert DiffPositions(t, r, off) == ps;
      var d := Differing(t, r);
      var dt := Differing(t[1..], r[1..]);
      assert d == (if t[0] != r[0] then [r[0]] else []) + dt;
      forall i | |head| <= i < |ps| ensures off <= ps[i] < off + |r| && d[i] == r[ps[i] - off] {
        assert ps[i] == tail[i - |head|] && d[i] == dt[i - |head|];
        assert r[1..][tail[i - |head|] - (off + 1)] == r[ps[i] - off];
      }
    }
  }

  /**
   * With equal token counts, the fallback returns the raw token of every position where the template
   * token differs, each once, in position order, and nothing else.
   */
  lemma DifferingInOrder(t: seq<string>, r: seq<string>)
    requires |t| == |r|
    ensures var ps := DiffPositions(t, r, 0);
      && (forall i, j | 0 <= i < j < |ps| :: ps[i] < ps[j])
      && (forall k | 0 <= k < |t| :: t[k] != r[k] <==> k in ps)
      && (forall i | 0 <= i < |ps| :: ps[i] < |r|)
      && Differing(t, r) == seq(|ps|, i requires 0 <= i < |ps| && ps[i] < |r| => r[ps[i]])
  {
    var ps := DiffPositions(t, r, 0);
    DiffPositionsIncrease(t, r, 0);
    DiffPositionsExact(t, r, 0);
    forall k | 0 <= k < |t| ensures t[k] != r[k] <==> k in ps {
      assert 0 + k == k;
    }
    DifferingPicks(t, r, 0);
    var d := Differing(t, r);
    var picked := seq(|ps|, i requires 0 <= i < |ps| && ps[i] < |r| => r[ps[i]]);
    forall i | 0 <= i < |ps| ensures d[i] == picked[i] {
      assert d[i] == r[ps[i] - 0];
    }
    assert d == picked;
  }

  /** Presentation tier of a journal priority. */
  datatype Label = Error | Warn | Info

  function LabelOf(priority: int): Label {
    if priority <= 3 then Error else if priority == 4 then Warn else Info
  }

  /** A line is shown on the first sighting of its cluster, and always at priority 4 or more severe. */
  predicate Shown(printed: set<int>, clusterId: int, priority: int) {
    clusterId !in printed || priority <= 4
  }

  /** What the miner returns for a message: `result["cluster_id"]`, `result["template_mined"]`. */
  datatype Mined = Mined(clusterId: int, template: string)

  /**
   * The JSON value journalctl writes for a message: a text, `null` for a field it will not print
   * (one over its size limit), or an array of byte values for a message that is not UTF-8.
   */
  datatype MessageValue = Text(text: string) | Null | Bytes(values: seq<int>)

  /** `str(n)` for an integer. */
  function IntToString(n: int): string {
    if n < 0 then "-" + NatToString(-n) else NatToString(n)
  }

  /** Python's `str(v)` of the decoded JSON value: the text itself, `None`, or the list display `[104, 105]`. */
  function PyStr(v: MessageValue): string {
    match v
    case Text(s) => s
    case Null => "None"
    case Bytes(vs) => "[" + Join(seq(|vs|, k requires 0 <= k < |vs| => IntToString(vs[k])), ", ") + "]"
  }

  /** A value that is not a text renders as a non-empty string with nothing to trim. */
  lemma PyStrOfNonText(v: MessageValue)
    requires !v.Text?
    ensures PyStr(v) != [] && Strip(PyStr(v)) == PyStr(v)
    ensures v.Null? ==> PyStr(v) == "None"
    ensures v.Bytes? ==> PyStr(v)[0] == '[' && PyStr(v)[|PyStr(v)| - 1] == ']'
  {
    var r := PyStr(v);
    assert !IsSpace(r[0]) && !IsSpace(r[|r| - 1]);
    StripUntrimmed(r);
  }

  /**
   * The collector's dictionary; every key may be missing (`None`). A whole record of `None` stands
   * for an empty dictionary or `None`.
   */
  datatype RawRecord = RawRecord(message: Option<MessageValue>, priority: Option<int>, unit: Option<string>)

  const DefaultUnit: string := "sys"
  /** Characters of the message echoed on screen (`raw_msg[:100]`). */
  const ScreenWidth: nat := 100

  datatype ScreenLine = NewTemplate(clusterId: int, template: string) | LogLine(tier: Label, unit: string, text: string)

  /** The fields `process_log` goes on with, or `None` where it returns early. */
  datatype Admitted = Admitted(raw: string, priority: int, unit: string)

  function Admit(logData: Option<RawRecord>): Option<Admitted> {
    match logData
    case None => None
    case Some(d) =>
      match d.message
      case None => None
      case Some(m) =>
        var raw := Strip(PyStr(m));
        if raw == [] then None
        else Some(Admitted(raw, d.priority.GetOr(DefaultPriority), d.unit.GetOr(DefaultUnit)))
  }

  /**
   * `process_log` goes on exactly when a record arrived with a message key whose value is not a blank
   * text; a `null` or a byte array goes on as its rendering "None" or "[...]". It then works on the
   * trimmed rendering, which is non-empty and has nothing left to trim, with priority 6 and unit "sys"
   * standing in for missing fields.
   */
  lemma AdmitSpec(logData: Option<RawRecord>)
    ensures Admit(logData).None? <==>
      || logData.None? || logData.value.message.None?
      || (logData.value.message.value.Text? && Strip(logData.value.message.value.text) == [])
    ensures Admit(logData).Some? ==>
      var a := Admit(logData).value;
      var d := logData.value;
      var m := d.message.value;
      && a.raw == Strip(PyStr(m)) && a.raw != [] && Strip(a.raw) == a.raw
      && (m.Text? ==> a.raw == Strip(m.text))
      && (m.Null? ==> a.raw == "None")
      && (m.Bytes? ==> a.raw[0] == '[' && a.raw[|a.raw| - 1] == ']')
      && a.priority == (if d.priority.Some? then d.priority.value else 6)
      && a.unit == (if d.unit.Some? then d.unit.value else "sys")
  {
    if logData.Some? && logData.value.message.Some? {
      var m := logData.value.message.value;
      if !m.Text? {
        PyStrOfNonText(m);
      }
      StripOfStripped(PyStr(m));
    }
  }

  /** The record `process_log` puts on the output queue. */
  function Output(a: Admitted, m: Mined): (r: Record)
    ensures r.message == m.template && r.original == a.raw && r.unit == a.unit
    ensures PriorityOf(r) == a.priority && ParamsOf(r) == ExtractParams(m.template, a.raw)
  {
    Record(m.template, Some(ExtractParams(m.template, a.raw)), Some(a.priority), a.raw, a.unit)
  }

  class LogNormalizer {
    /** Whether an output queue was given to the constructor. */
    const hasOutputQueue: bool
    var printedClusters: set<int>
    var outputQueue: seq<Record>
    /** Lines printed, in order. */
    var screen: seq<ScreenLine>
    /** Messages handed to the desktop notifier, in order. */
    var alerts: seq<string>

    constructor (hasOutputQueue: bool)
      ensures this.hasOutputQueue == hasOutputQueue
      ensures printedClusters == {} && outputQueue == [] && screen == [] && alerts == []
    {
      this.hasOutputQueue := hasOutputQueue;
      printedClusters := {};
      outputQueue := [];
      screen := [];
      alerts := [];
    }

    /** Best-effort notification: an unavailable notifier is swallowed, so nothing but the attempt is recorded. */
    method TriggerAlert(message: string)
      modifies this`alerts
      ensures alerts == old(alerts) + [message]
    {
      alerts := alerts + [message];
    }

    method ProcessLog(logData: Option<RawRecord>, miner: string -> Mined)
      modifies this
      ensures Admit(logData).None? ==>
        printedClusters == old(printedClusters) && outputQueue == old(outputQueue)
        && screen == old(screen) && alerts == old(alerts)
      ensures Admit(logData).Some? ==>
        var a := Admit(logData).value;
        var m := miner(a.raw);
        var firstSighting := m.clusterId !in old(printedClusters);
        && printedClusters == old(printedClusters) + {m.clusterId}
        && screen == old(screen)
             + (if firstSighting then [NewTemplate(m.clusterId, m.template)] else [])
             + (if Shown(old(printedClusters), m.clusterId, a.priority)
                then [LogLine(LabelOf(a.priority), a.unit, Lists.Prefix(a.raw, ScreenWidth))] else [])
        && alerts == old(alerts) + (if a.priority <= 3 then [a.unit + ": " + a.raw] else [])
        && outputQueue == old(outputQueue) + (if hasOutputQueue then [Output(a, m)] else [])
    {
      if logData.None? || logData.value.message.None? {
        return;
      }
      var rawMsg := Strip(PyStr(logData.value.message.value));
      var priority := logData.value.priority.GetOr(DefaultPriority);
      var unit := logData.value.unit.GetOr(DefaultUnit);
      if rawMsg == [] {
        return;
      }

      var result := miner(rawMsg);
      var params := ExtractParams(result.template, rawMsg);
      var tier := LabelOf(priority);

      var isNewTemplate := result.clusterId !in printedClusters;
      if isNewTemplate || priority <= 4 {
        printedClusters := printedClusters + {result.clusterId};
        if isNewTemplate {
          screen := screen + [NewTemplate(result.clusterId, result.template)];
        }
        screen := screen + [LogLine(tier, unit, Lists.Prefix(rawMsg, ScreenWidth))];
        if priority <= 3 {
          TriggerAlert(unit + ": " + rawMsg);
        }
      }

      if hasOutputQueue {
        outputQueue := outputQueue + [Record(result.template, Some(params), Some(priority), rawMsg, unit)];
      }
    }
  }
}
