/**
 * The search shell's read-eval loop (shell.py, `main`): each input line is stripped, split into a
 * command word, a category and a query, and turned into one action. The sentence encoder, the
 * stores and the terminal output are not modelled; an action names the `search` call the shell
 * makes (its category, text, `k` and `recency_bias`) or the message it prints.
 */
module Shell {
  import opened Wrappers
  import opened Text
  import Lists

  /** `TIME_KEYWORDS`, in list order: the order in which they are removed from a query. */
  const TimeKeywords: seq<string> := ["now", "latest", "recent", "current", "last", "today"]
  /** The keys of `dbs`. */
  const Categories: seq<string> := ["error", "warning", "debug"]
  /** What the shell encodes when the query held nothing but time keywords. */
  const BroadQuery: string := "system device " + "error warning"

  datatype Action =
    | Skip                                    // a blank line: `continue`
    | Quit                                    // `exit` or `quit`: `break`
    | Usage                                   // the usage message
    | IndexFault                              // `parts[2]` on a two-part line: `IndexError` ends the shell
    | UnknownCategory(cat: string)            // the unknown-category message
    | Search(cat: string, text: string, k: nat, recencyBias: bool, latest: bool)
    | ClearScreen                             // `clear`
    | UnknownCommand                          // the unknown-command message

  /** `any(w in s for w in words)`. */
  predicate AnyIn(words: seq<string>, s: string) {
    words != [] && (Contains(s, words[0]) || AnyIn(words[1..], s))
  }

  /** `any` is true exactly when one of the words occurs in `s`. */
  lemma {:induction false} AnyInIff(words: seq<string>, s: string)
    ensures AnyIn(words, s) <==> exists i | 0 <= i < |words| :: Contains(s, words[i])
  {
    if words != [] {
      AnyInIff(words[1..], s);
      if !Contains(s, words[0]) && AnyIn(words[1..], s) {
        var i :| 0 <= i < |words[1..]| && Contains(s, words[1..][i]);
        assert Contains(s, words[i + 1]);
      }
      if exists i | 0 <= i < |words| :: Contains(s, words[i]) {
        var i :| 0 <= i < |words| && Contains(s, words[i]);
        if i > 0 {
          assert Contains(s, words[1..][i - 1]);
        }
      }
    }
  }

  /** The time-sorting flag of line 41: some keyword occurs in the lower-cased query. */
  predicate Recency(query: string) {
    AnyIn(TimeKeywords, Lower(query))
  }

  /**
   * One pass of the cleaning loop: every occurrence of `w` removed, then `strip()`. Replacing the
   * empty string by the empty string leaves a string as it is.
   */
  function RemoveKeyword(text: string, w: string): string {
    if w == [] then Strip(text) else Strip(ReplaceAll(text, w, ""))
  }

  /** The cleaning loop of lines 46-47, keyword by keyword in list order. */
  function Cleaned(text: string, words: seq<string>): string
    decreases |words|
  {
    if words == [] then text else Cleaned(RemoveKeyword(text, words[0]), words[1..])
  }

  /** The search text of lines 44-47: the cleaned query under recency, the query itself otherwise. */
  function SearchText(query: string, recency: bool): string {
    if recency then Cleaned(query, TimeKeywords) else query
  }

  /** Lines 44-47 as the shell runs them: a loop that reassigns `search_text`. */
  method CleanQuery(query: string, recency: bool) returns (searchText: string)
    ensures searchText == SearchText(query, recency)
    ensures !recency ==> searchText == query
    ensures |searchText| <= |query|
  {
    searchText := query;
    if recency {
      for i := 0 to |TimeKeywords|
        invariant Cleaned(searchText, TimeKeywords[i..]) == Cleaned(query, TimeKeywords)
        invariant |searchText| <= |query|
      {
        assert TimeKeywords[i..][1..] == TimeKeywords[i + 1..];
        RemoveKeywordShrinks(searchText, TimeKeywords[i]);
        searchText := RemoveKeyword(searchText, TimeKeywords[i]);
      }
    }
  }

  /** The action for a `search` line, from the parts of `line.split(" ", 2)` (lines 29-74). */
  function SearchCommand(parts: seq<string>): Action
    requires 1 <= |parts| <= 3
  {
    if |parts| < 3 then
      if |parts| == 2 && AnyIn(TimeKeywords, parts[1]) then IndexFault else Usage
    else
      var cat := Lower(parts[1]);
      var query := parts[2];
      if cat !in Categories then UnknownCategory(cat)
      else
        var recency := Recency(query);
        var text := SearchText(query, recency);
        if recency && text == [] then Search(cat, BroadQuery, 10, true, true)
        else Search(cat, text, 5, recency, false)
  }

  /** The action for one line read by `input()` (lines 21-76). */
  function Classify(raw: string): Action {
    var line := Strip(raw);
    if line == [] then Skip
    else
      var parts := SplitOn(line, ' ', 2);
      var cmd := Lower(parts[0]);
      if cmd == "exit" || cmd == "quit" then Quit
      else if cmd == "search" then SearchCommand(parts)
      else if cmd == "clear" then ClearScreen
      else UnknownCommand
  }

  /** The line ends the shell: `break` on `exit`/`quit`, or the uncaught `IndexError`. */
  predicate Ends(a: Action) {
    a == Quit || a == IndexFault
  }

  /** The action for each line typed, in order. */
  function ClassifyAll(lines: seq<string>): (acts: seq<Action>)
    ensures |acts| == |lines|
    ensures forall k | 0 <= k < |lines| :: acts[k] == Classify(lines[k])
  {
    seq(|lines|, k requires 0 <= k < |lines| => Classify(lines[k]))
  }

  /**
   * What a session does, given the action for each line typed: blank lines are skipped, and the
   * session stops after an action that ends it or when the input runs out.
   */
  function Transcript(acts: seq<Action>): seq<Action> {
    if acts == [] then []
    else if acts[0] == Skip then Transcript(acts[1..])
    else if Ends(acts[0]) then [acts[0]]
    else [acts[0]] + Transcript(acts[1..])
  }

  /** The `while True` loop of `main` over the lines typed; EOF ends it when `lines` runs out. */
  method Session(lines: seq<string>) returns (actions: seq<Action>)
    ensures actions == Transcript(ClassifyAll(lines))
  {
    ghost var acts := ClassifyAll(lines);
    actions := [];
    var i := 0;
    while i < |lines|
      invariant 0 <= i <= |lines|
      invariant actions + Transcript(acts[i..]) == Transcript(acts)
    {
      assert acts[i..][0] == acts[i] && acts[i..][1..] == acts[i + 1..];
      var a := Classify(lines[i]);
      if a == Skip {
        i := i + 1;
        continue;
      }
      actions := actions + [a];
      if a == Quit || a == IndexFault {
        assert actions + [] == actions;
        return;
      }
      Lists.AppendAssoc(actions[..|actions| - 1], [a], Transcript(acts[i + 1..]));
      assert actions[..|actions| - 1] + [a] == actions;
      i := i + 1;
    }
    assert actions + [] == actions;
  }

  // ---------------------------------------------------------------- properties

  lemma RemoveKeywordShrinks(text: string, w: string)
    ensures |RemoveKeyword(text, w)| <= |text|
    ensures RemoveKeyword(text, w) == Strip(RemoveKeyword(text, w))
  {
    if w == [] {
      StripTrims(text);
      StripOfStripped(text);
    } else {
      StripTrims(ReplaceAll(text, w, ""));
      StripOfStripped(ReplaceAll(text, w, ""));
    }
  }

  /**
   * Cleaning never lengthens the query, and, once at least one keyword has been processed, the
   * text has no whitespace at either end (each pass ends with `strip()`).
   */
  lemma {:induction false} CleanedTrimmed(text: string, words: seq<string>)
    ensures |Cleaned(text, words)| <= |text|
    ensures words != [] ==> Cleaned(text, words) == Strip(Cleaned(text, words))
    decreases |words|
  {
    if words != [] {
      var t := RemoveKeyword(text, words[0]);
      RemoveKeywordShrinks(text, words[0]);
      CleanedTrimmed(t, words[1..]);
    }
  }

  /** The parts of `s.split(sep, n)` joined by `sep` give back `s`. */
  lemma {:induction false} SplitJoin(s: string, sep: char, n: nat)
    ensures Join(SplitOn(s, sep, n), [sep]) == s
    decreases n, 1
  {
    if n == 0 {
      assert SplitOn(s, sep, n) == [s];
    } else {
      match FindChar(s, sep)
      case None =>
        assert SplitOn(s, sep, n) == [s];
      case Some(i) =>
        SplitJoinFound(s, sep, n, i);
    }
  }

  /** The inductive step of `SplitJoin`: a found separator is restored between the head and the rejoined tail. */
  lemma {:induction false} SplitJoinFound(s: string, sep: char, n: nat, i: nat)
    requires n > 0 && FindChar(s, sep) == Some(i)
    ensures Join(SplitOn(s, sep, n), [sep]) == s
    decreases n, 0
  {
    SplitOnFound(s, sep, n, i);
    var rest := SplitOn(s[i + 1..], sep, n - 1);
    SplitJoin(s[i + 1..], sep, n - 1);
    JoinAround(s, sep, i, rest);
  }

  lemma SplitOnFound(s: string, sep: char, n: nat, i: nat)
    requires n > 0 && FindChar(s, sep) == Some(i)
    ensures i < |s| && s[i] == sep
    ensures SplitOn(s, sep, n) == [s[..i]] + SplitOn(s[i + 1..], sep, n - 1)
  {
  }

  /** Cutting `s` at a separator and joining the pieces back restores it. */
  lemma JoinAround(s: string, sep: char, i: nat, rest: seq<string>)
    requires i < |s| && s[i] == sep && rest != [] && Join(rest, [sep]) == s[i + 1..]
    ensures Join([s[..i]] + rest, [sep]) == s
  {
    var parts := [s[..i]] + rest;
    assert parts[0] == s[..i] && parts[1..] == rest;
    assert Join(parts, [sep]) == s[..i] + [sep] + s[i + 1..];
    assert s == s[..i] + [sep] + s[i + 1..];
  }

  /** Only the last part of `s.split(sep, n)` can hold `sep`. */
  lemma {:induction false} SplitOnShape(s: string, sep: char, n: nat)
    ensures forall k | 0 <= k < |SplitOn(s, sep, n)| - 1 :: sep !in SplitOn(s, sep, n)[k]
    decreases n
  {
    if n > 0 {
      match FindChar(s, sep)
      case Some(i) =>
        SplitOnShape(s[i + 1..], sep, n - 1);
        var parts := SplitOn(s, sep, n);
        var rest := SplitOn(s[i + 1..], sep, n - 1);
        assert parts == [s[..i]] + rest;
        forall k | 1 <= k < |parts| - 1 ensures sep !in parts[k] {
          assert parts[k] == rest[k - 1];
        }
      case None =>
    }
  }

  /** The split goes as far as it may: when fewer than `n + 1` parts come out, the last one holds no separator. */
  lemma {:induction false} SplitOnMaximal(s: string, sep: char, n: nat)
    ensures |SplitOn(s, sep, n)| <= n ==> sep !in SplitOn(s, sep, n)[|SplitOn(s, sep, n)| - 1]
    decreases n
  {
    if n > 0 {
      match FindChar(s, sep)
      case Some(i) =>
        SplitOnMaximal(s[i + 1..], sep, n - 1);
        var parts := SplitOn(s, sep, n);
        var rest := SplitOn(s[i + 1..], sep, n - 1);
        assert parts == [s[..i]] + rest;
        assert parts[|parts| - 1] == rest[|rest| - 1];
      case None =>
        assert SplitOn(s, sep, n) == [s];
    }
  }

  /** A line is a `search` command exactly when its stripped form splits with `search` as the lower-cased first part. */
  lemma ClassifyCommandWord(raw: string)
    ensures var line := Strip(raw);
      var parts := SplitOn(line, ' ', 2);
      && (Classify(raw) == Skip <==> line == [])
      && (line != [] ==> (Classify(raw) == Quit <==> Lower(parts[0]) == "exit" || Lower(parts[0]) == "quit"))
      && (line != [] ==> (Classify(raw) == ClearScreen <==> Lower(parts[0]) == "clear"))
      && (line != [] && Lower(parts[0]) == "search" ==> Classify(raw) == SearchCommand(parts))
  {
    var line := Strip(raw);
    if line != [] {
      SplitOnShape(line, ' ', 2);
      SearchCommandIsNotOther(SplitOn(line, ' ', 2));
    }
  }

  /** A `search` line never yields the actions of the other commands. */
  lemma SearchCommandIsNotOther(parts: seq<string>)
    requires 1 <= |parts| <= 3
    ensures SearchCommand(parts) != Skip && SearchCommand(parts) != Quit
    ensures SearchCommand(parts) != ClearScreen && SearchCommand(parts) != UnknownCommand
  {
  }

  /**
   * A `search` line with fewer than three parts prints the usage unless it has exactly two and the
   * second holds a keyword (case-sensitively), which reads the missing third part and fails.
   */
  lemma ShortSearch(parts: seq<string>)
    requires 1 <= |parts| < 3
    ensures SearchCommand(parts) == IndexFault <==> |parts| == 2 && exists i | 0 <= i < |TimeKeywords| :: Contains(parts[1], TimeKeywords[i])
    ensures SearchCommand(parts) == IndexFault || SearchCommand(parts) == Usage
  {
    if |parts| == 2 {
      AnyInIff(TimeKeywords, parts[1]);
    }
  }

  /** With three parts a search runs only for one of the three stores, named in any letter case. */
  lemma SearchCategory(parts: seq<string>)
    requires |parts| == 3
    ensures SearchCommand(parts).Search? <==> Lower(parts[1]) in Categories
    ensures SearchCommand(parts).Search? ==> SearchCommand(parts).cat == Lower(parts[1])
    ensures !SearchCommand(parts).Search? ==> SearchCommand(parts) == UnknownCategory(Lower(parts[1]))
  {
  }

  /** Recency holds exactly when some keyword occurs in the lower-cased query. */
  lemma RecencyIff(query: string)
    ensures Recency(query) <==> exists i | 0 <= i < |TimeKeywords| :: Contains(Lower(query), TimeKeywords[i])
  {
    AnyInIff(TimeKeywords, Lower(query));
  }

  /**
   * The search a three-part line runs: a query of nothing but time keywords searches the broad
   * text with `k = 10` and the recency bias; any other query searches its (cleaned) text with
   * `k = 5`, biased by recency exactly when it mentions a keyword.
   */
  lemma SearchChoice(parts: seq<string>)
    requires |parts| == 3 && Lower(parts[1]) in Categories
    ensures var a := SearchCommand(parts);
      var query := parts[2];
      && a.Search?
      && (a.latest <==> Recency(query) && Cleaned(query, TimeKeywords) == [])
      && (a.k == 10 <==> a.latest)
      && (a.latest ==> a.text == BroadQuery && a.recencyBias)
      && (!a.latest ==> a.k == 5 && a.recencyBias == Recency(query) && a.text == SearchText(query, Recency(query)))
      && (!Recency(query) ==> a.text == query && !a.recencyBias)
      && (Recency(query) && !a.latest ==> a.text != [] && a.text == Strip(a.text))
  {
    CleanedTrimmed(parts[2], TimeKeywords);
  }

  /** Blank lines leave no trace, and only the last action of a session can end it. */
  lemma {:induction false} TranscriptShape(acts: seq<Action>)
    ensures |Transcript(acts)| <= |acts|
    ensures forall k | 0 <= k < |Transcript(acts)| :: Transcript(acts)[k] != Skip
    ensures forall k | 0 <= k < |Transcript(acts)| - 1 :: !Ends(Transcript(acts)[k])
  {
    if acts != [] {
      TranscriptShape(acts[1..]);
      if acts[0] != Skip && !Ends(acts[0]) {
        var t := Transcript(acts);
        var rest := Transcript(acts[1..]);
        assert t == [acts[0]] + rest;
        forall k | 1 <= k < |t| ensures t[k] == rest[k - 1] {}
      }
    }
  }

  /** A session that reaches `exit` or `quit` stops there: nothing typed after it is acted on. */
  lemma {:induction false} QuitStops(acts: seq<Action>, n: nat)
    requires n < |acts| && acts[n] == Quit
    requires forall k | 0 <= k < n :: !Ends(acts[k])
    ensures Transcript(acts) == Transcript(acts[..n]) + [Quit]
  {
    if n == 0 {
      assert acts[..0] == [];
    } else {
      var rest := acts[1..];
      assert rest[n - 1] == acts[n];
      forall k | 0 <= k < n - 1 ensures !Ends(rest[k]) {
        assert rest[k] == acts[k + 1];
      }
      QuitStops(rest, n - 1);
      assert acts[..n][1..] == rest[..n - 1];
      assert acts[..n][0] == acts[0];
      if acts[0] != Skip {
        Lists.AppendAssoc([acts[0]], Transcript(rest[..n - 1]), [Quit]);
      }
    }
  }
}
