/**
 * The read path of a category store, `RelationalLogDB.search` and `_highlight_params` (storage.py):
 * template hydration, the highlighted display text, the broad phase over the vector scores, the
 * candidate rows, and the narrow-phase re-ranking, as functions of the tables and two score oracles.
 */
module Retrieval {
  import opened Wrappers
  import opened Text
  import opened Lists
  import opened Catalog

  /** The wildcard the normaliser leaves in a template where a value was masked. */
  const Placeholder: string := "<*>"
  /** ANSI bold yellow, and the reset that ends it. */
  const Emphasis: string := "\U{1B}[1;33m"
  const Reset: string := "\U{1B}[0m"

  /** At most this many templates leave the broad phase. */
  const BroadLimit: nat := 20
  /** With recency bias, candidates whose re-ranked score does not exceed this are dropped. */
  const RelevanceFloor: real := 0.15
  const NoLogs: string := "No logs indexed yet."

  /** One step of the hydration loop: the leftmost placeholder takes `p`, or `p` is appended after a space. */
  function Fill(text: string, p: string): string {
    if Contains(text, Placeholder) then ReplaceFirst(text, Placeholder, p) else text + " " + p
  }

  /** The template with its parameters put back in, one at a time and in order. */
  function Hydrated(text: string, params: seq<string>): string {
    if params == [] then text else Fill(Hydrated(text, params[..|params| - 1]), params[|params| - 1])
  }

  /** `f"\033[1;33m{p}\033[0m"`. */
  function Emphasised(p: string): string {
    Emphasis + p + Reset
  }

  function EmphasisedAll(params: seq<string>): (r: seq<string>)
    ensures |r| == |params|
    ensures forall k | 0 <= k < |params| :: r[k] == Emphasised(params[k])
  {
    seq(|params|, k requires 0 <= k < |params| => Emphasised(params[k]))
  }

  /** `_highlight_params`: the same filling as hydration, with each value wrapped in the emphasis codes. */
  function Highlighted(text: string, params: seq<string>): string {
    Hydrated(text, EmphasisedAll(params))
  }

  /** `" p1 p2 ..."`: what hydration appends when there is no placeholder to fill. */
  function Spaced(params: seq<string>): string {
    if params == [] then [] else Spaced(params[..|params| - 1]) + (" " + params[|params| - 1])
  }

  /** The loop of lines 117-121. */
  method Hydrate(text: string, params: seq<string>) returns (r: string)
    ensures r == Hydrated(text, params)
  {
    r := text;
    for i := 0 to |params|
      invariant r == Hydrated(text, params[..i])
    {
      assert params[..i + 1][..i] == params[..i];
      if Contains(r, Placeholder) {
        r := ReplaceFirst(r, Placeholder, params[i]);
      } else {
        r := r + " " + params[i];
      }
    }
    assert params[..|params|] == params;
  }

  /** `_highlight_params`. */
  method HighlightParams(text: string, params: seq<string>) returns (r: string)
    ensures r == Highlighted(text, params)
  {
    r := text;
    ghost var emph := EmphasisedAll(params);
    for i := 0 to |params|
      invariant r == Hydrated(text, emph[..i])
    {
      assert emph[..i + 1][..i] == emph[..i];
      var pStr := Emphasis + params[i] + Reset;
      if Contains(r, Placeholder) {
        r := ReplaceFirst(r, Placeholder, pStr);
      } else {
        r := r + " " + pStr;
      }
    }
    assert emph[..|params|] == emph;
  }

  /** `p in s` fails exactly when no suffix of `s` starts with `p`. */
  lemma NotContainsAt(s: string, p: string, j: nat)
    requires !Contains(s, p) && j <= |s|
    ensures !StartsWith(s[j..], p)
  {
    IndexOfLeftmost(s, p);
  }

  lemma SpaceAtJoin(a: string, b: string, j: nat)
    requires j <= |a| < j + 3 <= |a + " " + b|
    ensures (a + " " + b)[j..j + 3][|a| - j] == ' '
  {
  }

  /** A placeholder in `a + " " + b` lies inside `a` or inside `b`: it has no space to straddle the join. */
  lemma PlaceholderSides(a: string, b: string, j: nat)
    requires j + 3 <= |a + " " + b| && (a + " " + b)[j..j + 3] == Placeholder
    ensures (j + 3 <= |a| && StartsWith(a[j..], Placeholder)) || (j > |a| && StartsWith(b[j - |a| - 1..], Placeholder))
  {
    var s := a + " " + b;
    if j + 3 <= |a| {
      assert a[j..][..3] == s[j..j + 3];
    } else if j > |a| {
      assert b[j - |a| - 1..][..3] == s[j..j + 3];
    } else {
      SpaceAtJoin(a, b, j);
      assert false;
    }
  }

  /** Joining two placeholder-free texts with a space cannot create a placeholder. */
  lemma NoPlaceholderAcrossSpace(a: string, b: string)
    requires !Contains(a, Placeholder) && !Contains(b, Placeholder)
    ensures !Contains(a + " " + b, Placeholder)
  {
    var r := IndexOf(a + " " + b, Placeholder);
    if r.Some? {
      IndexOfLeftmost(a, Placeholder);
      IndexOfLeftmost(b, Placeholder);
      PlaceholderSides(a, b, r.value);
      assert false;
    }
  }

  /** Filling a placeholder-free text appends the value after a space. */
  lemma FillAppends(h: string, p: string)
    requires !Contains(h, Placeholder)
    ensures Fill(h, p) == h + (" " + p)
  {
  }

  /** Hydrating a placeholder-free template with placeholder-free values leaves no placeholder. */
  lemma {:induction false} HydratedHasNoPlaceholder(text: string, params: seq<string>)
    requires !Contains(text, Placeholder)
    requires forall k | 0 <= k < |params| :: !Contains(params[k], Placeholder)
    ensures !Contains(Hydrated(text, params), Placeholder)
  {
    if params != [] {
      var n := |params| - 1;
      var init := params[..n];
      assert forall k | 0 <= k < |init| :: init[k] == params[k];
      HydratedHasNoPlaceholder(text, init);
      var h := Hydrated(text, init);
      FillAppends(h, params[n]);
      NoPlaceholderAcrossSpace(h, params[n]);
    }
  }

  /**
   * A template without a placeholder gets its parameters appended, each after a space, provided no
   * parameter itself contains a placeholder (otherwise the next value would be written into it).
   */
  lemma {:induction false} HydratedAppends(text: string, params: seq<string>)
    requires !Contains(text, Placeholder)
    requires forall k | 0 <= k < |params| :: !Contains(params[k], Placeholder)
    ensures Hydrated(text, params) == text + Spaced(params)
  {
    if params != [] {
      var n := |params| - 1;
      var init := params[..n];
      assert forall k | 0 <= k < |init| :: init[k] == params[k];
      var h := Hydrated(text, init);
      var tail := " " + params[n];
      calc {
        Hydrated(text, params);
        Fill(h, params[n]);
        { HydratedHasNoPlaceholder(text, init); FillAppends(h, params[n]); }
        h + tail;
        { HydratedAppends(text, init); }
        (text + Spaced(init)) + tail;
        text + (Spaced(init) + tail);
        text + Spaced(params);
      }
    }
  }

  /** Without parameters both the hydrated and the displayed text are the template itself. */
  lemma NoParamsKeepTemplate(text: string)
    ensures Hydrated(text, []) == text && Highlighted(text, []) == text
  {
    assert EmphasisedAll([]) == [];
  }

  /** The value of the first parameter lands where the leftmost placeholder was. */
  lemma FirstParamFillsLeftmost(text: string, p: string)
    requires Contains(text, Placeholder)
    ensures var i := IndexOf(text, Placeholder).value;
      Hydrated(text, [p]) == text[..i] + p + text[i + 3..]
  {
    assert [p][..0] == [];
  }

  /** A candidate row of the broad phase (the `raw_candidates` dictionary). */
  datatype Candidate = Candidate(templateScore: real, ts: int, fullText: string, display: string)

  /** A candidate with its narrow-phase score (`final_score`). */
  datatype Scored = Scored(candidate: Candidate, finalScore: real)

  /** One output line: the notice for an empty store, or a formatted hit. */
  datatype Line = Notice(text: string) | Hit(score: real, ts: int, display: string)

  /**
   * `np.argpartition(scores, -search_k)[-search_k:]`: the `min(20, vec_count)` best-scoring vector
   * indices. The order among them is unspecified in the source; the model lists them best first.
   */
  function TopIndices(vecCount: nat, coarse: nat -> real): seq<nat> {
    Prefix(SortDesc(Range(vecCount), coarse), Min(BroadLimit, vecCount))
  }

  /** The candidate for vector index `idx`, if a template row owns it. */
  function CandidateFor(t: Tables, idx: nat, coarse: nat -> real): Option<Candidate> {
    match TemplateWithVector(t.templates, idx)
    case None => None
    case Some(row) =>
      match Latest(t.occurrences, row.id)
      case None => Some(Candidate(coarse(idx), row.lastSeen, row.text, Highlighted(row.text, [])))
      case Some(occ) =>
        var ps := ParamValues(t.parameters, occ.id);
        Some(Candidate(coarse(idx), occ.timestamp, Hydrated(row.text, ps), Highlighted(row.text, ps)))
  }

  /** `raw_candidates`, in the order of the top indices. */
  function Candidates(t: Tables, idxs: seq<nat>, coarse: nat -> real): seq<Candidate> {
    if idxs == [] then []
    else
      var c := CandidateFor(t, idxs[|idxs| - 1], coarse);
      Candidates(t, idxs[..|idxs| - 1], coarse) + (if c.Some? then [c.value] else [])
  }

  /** The live re-ranking scores: `fine` stands for encoding the hydrated text and taking the dot product. */
  function ScoreAll(cands: seq<Candidate>, fine: string -> real): (r: seq<Scored>)
    ensures |r| == |cands|
    ensures forall i | 0 <= i < |cands| :: r[i] == Scored(cands[i], fine(cands[i].fullText))
  {
    seq(|cands|, i requires 0 <= i < |cands| => Scored(cands[i], fine(cands[i].fullText)))
  }

  function Relevant(scored: seq<Scored>): (r: seq<Scored>)
    ensures |r| <= |scored|
  {
    if scored == [] then []
    else
      var s := scored[|scored| - 1];
      Relevant(scored[..|scored| - 1]) + (if s.finalScore > RelevanceFloor then [s] else [])
  }

  function ByTime(s: Scored): real { s.candidate.ts as real }
  function ByScore(s: Scored): real { s.finalScore }

  /** Step 3: with recency bias, the relevant candidates newest first; otherwise best re-ranked score first. */
  function Rank(scored: seq<Scored>, recencyBias: bool): seq<Scored> {
    if recencyBias then SortDesc(Relevant(scored), ByTime) else SortDesc(scored, ByScore)
  }

  function HitOf(s: Scored): Line {
    Hit(s.finalScore, s.candidate.ts, s.candidate.display)
  }

  function HitsOf(ranked: seq<Scored>): (r: seq<Line>)
    ensures |r| == |ranked|
    ensures forall i | 0 <= i < |ranked| :: r[i] == HitOf(ranked[i])
  {
    seq(|ranked|, i requires 0 <= i < |ranked| => HitOf(ranked[i]))
  }

  /** `search`, with the vector file's scores as `coarse` and the re-encoding scores as `fine`. */
  function SearchResult(t: Tables, vecCount: nat, k: int, recencyBias: bool, coarse: nat -> real, fine: string -> real): seq<Line> {
    if vecCount == 0 then [Notice(NoLogs)]
    else
      var cands := Candidates(t, TopIndices(vecCount, coarse), coarse);
      HitsOf(Prefix(Rank(ScoreAll(cands, fine), recencyBias), k))
  }

  /**
   * The broad phase keeps `min(20, vec_count)` distinct indices of stored vectors, and none it leaves
   * out scores higher than one it keeps.
   */
  lemma TopIndicesBest(vecCount: nat, coarse: nat -> real)
    ensures var top := TopIndices(vecCount, coarse);
      && |top| == Min(BroadLimit, vecCount)
      && (forall a | 0 <= a < |top| :: top[a] < vecCount)
      && (forall a, b | 0 <= a < b < |top| :: top[a] != top[b])
      && (forall a, x | 0 <= a < |top| && 0 <= x < vecCount && x !in top :: coarse(top[a]) >= coarse(x))
  {
    var sorted := SortDesc(Range(vecCount), coarse);
    SortDescCorrect(Range(vecCount), coarse);
    PermutationOfRange(sorted, vecCount);
    var top := TopIndices(vecCount, coarse);
    assert top == sorted[..|top|];
    forall a, x | 0 <= a < |top| && 0 <= x < vecCount && x !in top
      ensures coarse(top[a]) >= coarse(x)
    {
      assert x in sorted;
      assert sorted[a] == top[a];
    }
  }

  lemma {:induction false} CandidatesBound(t: Tables, idxs: seq<nat>, coarse: nat -> real)
    ensures |Candidates(t, idxs, coarse)| <= |idxs|
    ensures (forall a | 0 <= a < |idxs| :: CandidateFor(t, idxs[a], coarse).Some?) ==> |Candidates(t, idxs, coarse)| == |idxs|
  {
    if idxs != [] {
      var n := |idxs| - 1;
      CandidatesBound(t, idxs[..n], coarse);
      if forall a | 0 <= a < |idxs| :: CandidateFor(t, idxs[a], coarse).Some? {
        assert forall a | 0 <= a < n :: idxs[..n][a] == idxs[a];
        assert CandidateFor(t, idxs[n], coarse).Some?;
      }
    }
  }

  /** Every vector index below the number of rows of a dense table belongs to a row, so it yields a candidate. */
  lemma DenseHasCandidate(t: Tables, idx: nat, coarse: nat -> real)
    requires Dense(t.templates) && idx < |t.templates|
    ensures CandidateFor(t, idx, coarse).Some?
  {
    assert t.templates[idx].vectorIdx == idx;
  }

  /** With recency bias only relevant candidates survive; every candidate survives otherwise. */
  lemma {:induction false} RelevantSpec(scored: seq<Scored>)
    ensures forall s | s in Relevant(scored) :: s in scored && s.finalScore > RelevanceFloor
    ensures forall s | s in scored && s.finalScore > RelevanceFloor :: s in Relevant(scored)
  {
    if scored != [] {
      var n := |scored| - 1;
      RelevantSpec(scored[..n]);
      assert scored == scored[..n] + [scored[n]];
    }
  }

  /**
   * The ranking is ordered as requested: newest first and all above the relevance floor with
   * recency bias, best re-ranked score first without; it holds exactly the candidates it should.
   */
  lemma RankSpec(scored: seq<Scored>, recencyBias: bool)
    ensures var r := Rank(scored, recencyBias);
      && (recencyBias ==> SortedDesc(r, ByTime) && multiset(r) == multiset(Relevant(scored)))
      && (recencyBias ==> forall s | s in r :: s in scored && s.finalScore > RelevanceFloor)
      && (!recencyBias ==> SortedDesc(r, ByScore) && multiset(r) == multiset(scored))
  {
    RelevantSpec(scored);
    if recencyBias {
      var r := SortDesc(Relevant(scored), ByTime);
      SortDescCorrect(Relevant(scored), ByTime);
      forall s | s in r ensures s in scored && s.finalScore > RelevanceFloor {
        assert s in multiset(Relevant(scored));
      }
    } else {
      SortDescCorrect(scored, ByScore);
    }
  }

  /** An empty store answers with the notice alone. */
  lemma EmptyStoreNotice(t: Tables, k: int, recencyBias: bool, coarse: nat -> real, fine: string -> real)
    ensures SearchResult(t, 0, k, recencyBias, coarse, fine) == [Notice(NoLogs)]
  {
  }

  /**
   * A search of a non-empty store returns at most `k` and at most `min(20, vec_count)` hits; when
   * every stored vector has its template row and no recency filter applies, it returns exactly
   * `min(k, 20, vec_count)` of them.
   */
  lemma SearchBound(t: Tables, vecCount: nat, k: int, recencyBias: bool, coarse: nat -> real, fine: string -> real)
    requires vecCount > 0
    ensures var out := SearchResult(t, vecCount, k, recencyBias, coarse, fine);
      && |out| <= Min(BroadLimit, vecCount)
      && (k >= 0 ==> |out| <= k)
      && (forall i | 0 <= i < |out| :: out[i].Hit?)
      && (Dense(t.templates) && vecCount <= |t.templates| && !recencyBias && k >= 0 ==>
            |out| == Min(k, Min(BroadLimit, vecCount)))
  {
    SearchAtMost(t, vecCount, k, recencyBias, coarse, fine);
    if Dense(t.templates) && vecCount <= |t.templates| && !recencyBias && k >= 0 {
      SearchExactly(t, vecCount, k, coarse, fine);
    }
  }

  lemma SearchAtMost(t: Tables, vecCount: nat, k: int, recencyBias: bool, coarse: nat -> real, fine: string -> real)
    requires vecCount > 0
    ensures var out := SearchResult(t, vecCount, k, recencyBias, coarse, fine);
      && |out| <= Min(BroadLimit, vecCount)
      && (k >= 0 ==> |out| <= k)
      && (forall i | 0 <= i < |out| :: out[i].Hit?)
  {
    var top := TopIndices(vecCount, coarse);
    TopIndicesBest(vecCount, coarse);
    CandidatesBound(t, top, coarse);
    RankLength(ScoreAll(Candidates(t, top, coarse), fine), recencyBias);
  }

  lemma SearchExactly(t: Tables, vecCount: nat, k: int, coarse: nat -> real, fine: string -> real)
    requires vecCount > 0 && Dense(t.templates) && vecCount <= |t.templates| && k >= 0
    ensures |SearchResult(t, vecCount, k, false, coarse, fine)| == Min(k, Min(BroadLimit, vecCount))
  {
    var top := TopIndices(vecCount, coarse);
    TopIndicesBest(vecCount, coarse);
    DenseCandidates(t, vecCount, coarse);
    RankLength(ScoreAll(Candidates(t, top, coarse), fine), false);
  }

  /** Ranking never adds candidates, and without recency bias it drops none. */
  lemma RankLength(scored: seq<Scored>, recencyBias: bool)
    ensures |Rank(scored, recencyBias)| <= |scored|
    ensures !recencyBias ==> |Rank(scored, recencyBias)| == |scored|
  {
  }

  /** Over a dense table every index of the broad phase yields its candidate. */
  lemma DenseCandidates(t: Tables, vecCount: nat, coarse: nat -> real)
    requires Dense(t.templates) && vecCount <= |t.templates|
    ensures |Candidates(t, TopIndices(vecCount, coarse), coarse)| == |TopIndices(vecCount, coarse)|
  {
    var top := TopIndices(vecCount, coarse);
    TopIndicesBest(vecCount, coarse);
    forall a | 0 <= a < |top| ensures CandidateFor(t, top[a], coarse).Some? {
      DenseHasCandidate(t, top[a], coarse);
    }
    CandidatesBound(t, top, coarse);
  }

  /**
   * The hits are the best-ranked candidates: they come from the candidates that survive ranking (all
   * of them, or those above the relevance floor with recency bias), there are `min(k, survivors)` of
   * them, and no survivor left out is newer (with recency bias) or better re-ranked (without) than
   * any hit shown.
   */
  lemma SearchShowsBest(t: Tables, vecCount: nat, k: int, recencyBias: bool, coarse: nat -> real, fine: string -> real)
    requires vecCount > 0
    ensures var scored := ScoreAll(Candidates(t, TopIndices(vecCount, coarse), coarse), fine);
      var pool := if recencyBias then Relevant(scored) else scored;
      var shown := Prefix(Rank(scored, recencyBias), k);
      && SearchResult(t, vecCount, k, recencyBias, coarse, fine) == HitsOf(shown)
      && multiset(shown) <= multiset(pool)
      && (k >= 0 ==> |shown| == Min(k, |pool|))
      && (recencyBias ==> forall h, s | h in shown && s in multiset(pool) - multiset(shown) ::
            h.candidate.ts >= s.candidate.ts)
      && (!recencyBias ==> forall h, s | h in shown && s in multiset(pool) - multiset(shown) ::
            h.finalScore >= s.finalScore)
  {
    var scored := ScoreAll(Candidates(t, TopIndices(vecCount, coarse), coarse), fine);
    var ranked := Rank(scored, recencyBias);
    var shown := Prefix(ranked, k);
    assert shown == ranked[..|shown|];
    if recencyBias {
      SortDescCorrect(Relevant(scored), ByTime);
      SortedPrefixIsBest(ranked, ByTime, |shown|);
      assert |ranked| == |multiset(ranked)| == |multiset(Relevant(scored))| == |Relevant(scored)|;
    } else {
      SortDescCorrect(scored, ByScore);
      SortedPrefixIsBest(ranked, ByScore, |shown|);
    }
  }

  /** The hits come out in the requested order: by time with recency bias, by re-ranked score otherwise. */
  lemma SearchOrder(t: Tables, vecCount: nat, k: int, recencyBias: bool, coarse: nat -> real, fine: string -> real)
    requires vecCount > 0
    ensures var out := SearchResult(t, vecCount, k, recencyBias, coarse, fine);
      && (forall i | 0 <= i < |out| :: out[i].Hit?)
      && (recencyBias ==> forall i | 0 <= i < |out| :: out[i].score > RelevanceFloor)
      && (recencyBias ==> forall i, j | 0 <= i < j < |out| :: out[i].ts >= out[j].ts)
      && (!recencyBias ==> forall i, j | 0 <= i < j < |out| :: out[i].score >= out[j].score)
  {
    var cands := Candidates(t, TopIndices(vecCount, coarse), coarse);
    var scored := ScoreAll(cands, fine);
    var ranked := Rank(scored, recencyBias);
    RankSpec(scored, recencyBias);
    var shown := Prefix(ranked, k);
    assert shown == ranked[..|shown|];
    var out := HitsOf(shown);
    if recencyBias {
      forall i | 0 <= i < |out| ensures out[i].score > RelevanceFloor {
        assert shown[i] == ranked[i];
        assert ranked[i] in ranked;
      }
      forall i, j | 0 <= i < j < |out| ensures out[i].ts >= out[j].ts {
        assert shown[i] == ranked[i] && shown[j] == ranked[j];
        assert ByTime(ranked[i]) >= ByTime(ranked[j]);
      }
    } else {
      forall i, j | 0 <= i < j < |out| ensures out[i].score >= out[j].score {
        assert shown[i] == ranked[i] && shown[j] == ranked[j];
        assert ByScore(ranked[i]) >= ByScore(ranked[j]);
      }
    }
  }
}
