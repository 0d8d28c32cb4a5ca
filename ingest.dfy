/**
 * The write path of a category store, `RelationalLogDB.add_batch` and `_prepare_occ` (storage.py),
 * as functions of the state before the call: which texts are new, the order in which occurrence rows
 * are built, the rows themselves, the cache and vector count afterwards, and whether the commit holds.
 */
module Ingest {
  import opened Wrappers
  import opened Lists
  import opened Events
  import opened Catalog

  /** `i * 0.001` seconds, in microseconds: consecutive batch items are one millisecond apart. */
  const TickMicros: nat := 1000

  /** `base_time + i * 0.001`. With timestamps in microseconds, `int(timestamp * 1000000)` is the timestamp itself. */
  function Stamp(base: int, i: nat): int {
    base + i * TickMicros
  }

  /** Later batch items get strictly later timestamps, hence distinct occurrence ids. */
  lemma StampsIncrease(base: int, i: nat, j: nat)
    requires i < j
    ensures Stamp(base, i) < Stamp(base, j)
  {
  }

  function Messages(batch: seq<Record>): (ms: seq<string>)
    ensures |ms| == |batch|
    ensures forall i | 0 <= i < |batch| :: ms[i] == batch[i].message
  {
    seq(|batch|, i requires 0 <= i < |batch| => batch[i].message)
  }

  /** Positions of the items whose text is already in the cache (the first branch of the first loop). */
  function Hits(batch: seq<Record>, cache: map<string, CacheEntry>): (r: seq<nat>)
    ensures forall k | 0 <= k < |r| :: r[k] < |batch| && batch[r[k]].message in cache
  {
    if batch == [] then []
    else
      var n := |batch| - 1;
      var r := Hits(batch[..n], cache);
      assert forall k | 0 <= k < |r| :: batch[..n][r[k]] == batch[r[k]];
      r + (if batch[n].message in cache then [n] else [])
  }

  /** `batch_map`: `(position, text)` of every item whose text is not cached, in batch order. */
  function BatchMap(batch: seq<Record>, cache: map<string, CacheEntry>): (r: seq<(nat, string)>)
    ensures forall k | 0 <= k < |r| :: r[k].0 < |batch| && batch[r[k].0].message == r[k].1 && r[k].1 !in cache
  {
    if batch == [] then []
    else
      var n := |batch| - 1;
      var r := BatchMap(batch[..n], cache);
      assert forall k | 0 <= k < |r| :: batch[..n][r[k].0] == batch[r[k].0];
      r + (if batch[n].message in cache then [] else [(n, batch[n].message)])
  }

  /** `unique_texts`: the uncached texts, each once, in order of first appearance. */
  function Novel(batch: seq<Record>, cache: map<string, CacheEntry>): seq<string> {
    if batch == [] then []
    else
      var n := |batch| - 1;
      var u := Novel(batch[..n], cache);
      var t := batch[n].message;
      if t in cache || t in u then u else u + [t]
  }

  /** The positions in `batch_map` whose text is `txt` (the inner loop of the second loop). */
  function SelectFor(pairs: seq<(nat, string)>, txt: string): seq<nat> {
    if pairs == [] then []
    else
      var n := |pairs| - 1;
      SelectFor(pairs[..n], txt) + (if pairs[n].1 == txt then [pairs[n].0] else [])
  }

  /** The positions visited by the second loop: for each new text in turn, its items in batch order. */
  function MissOrder(pairs: seq<(nat, string)>, texts: seq<string>): seq<nat> {
    if texts == [] then []
    else MissOrder(pairs, texts[..|texts| - 1]) + SelectFor(pairs, texts[|texts| - 1])
  }

  /** The order in which occurrence rows are built: cache hits first, then the new texts' items. */
  function Order(batch: seq<Record>, cache: map<string, CacheEntry>): seq<nat> {
    Hits(batch, cache) + MissOrder(BatchMap(batch, cache), Novel(batch, cache))
  }

  /**
   * The new texts are pairwise distinct, none was cached, each is the text of some item, and every
   * uncached item's text is among them.
   */
  lemma NovelSpec(batch: seq<Record>, cache: map<string, CacheEntry>)
    ensures var u := Novel(batch, cache);
      && (forall k, l | 0 <= k < l < |u| :: u[k] != u[l])
      && (forall k | 0 <= k < |u| :: u[k] !in cache && u[k] in Messages(batch))
      && (forall i | 0 <= i < |batch| && batch[i].message !in cache :: batch[i].message in u)
  {
    NovelDistinct(batch, cache);
    forall k | 0 <= k < |Novel(batch, cache)| {
      NovelMentioned(batch, cache, k);
    }
    forall i | 0 <= i < |batch| && batch[i].message !in cache {
      NovelCovers(batch, cache, i);
    }
  }

  predicate Distinct(u: seq<string>) {
    forall k, l | 0 <= k < l < |u| :: u[k] != u[l]
  }

  lemma {:induction false} NovelDistinct(batch: seq<Record>, cache: map<string, CacheEntry>)
    ensures Distinct(Novel(batch, cache))
  {
    if batch != [] {
      var n := |batch| - 1;
      var u0 := Novel(batch[..n], cache);
      var u := Novel(batch, cache);
      NovelDistinct(batch[..n], cache);
      if u != u0 {
        var t := batch[n].message;
        assert u == u0 + [t] && t !in u0;
        forall k, l | 0 <= k < l < |u| ensures u[k] != u[l] {
          assert u[k] == u0[k];
          if l < |u0| {
            assert u[l] == u0[l];
          } else {
            assert u[k] in u0 && u[l] == t;
          }
        }
      }
    }
  }

  lemma {:induction false} NovelMentioned(batch: seq<Record>, cache: map<string, CacheEntry>, k: nat)
    requires k < |Novel(batch, cache)|
    ensures Novel(batch, cache)[k] !in cache && Novel(batch, cache)[k] in Messages(batch)
  {
    var n := |batch| - 1;
    var u0 := Novel(batch[..n], cache);
    var ms := Messages(batch);
    assert Messages(batch[..n]) == ms[..n];
    if k < |u0| {
      NovelMentioned(batch[..n], cache, k);
      assert u0[k] in ms[..n];
    } else {
      assert ms[n] == batch[n].message;
    }
  }

  lemma {:induction false} NovelCovers(batch: seq<Record>, cache: map<string, CacheEntry>, i: nat)
    requires i < |batch| && batch[i].message !in cache
    ensures batch[i].message in Novel(batch, cache)
  {
    var n := |batch| - 1;
    var u0 := Novel(batch[..n], cache);
    if i < n {
      assert batch[..n][i] == batch[i];
      NovelCovers(batch[..n], cache, i);
      var k := FirstIndex(u0, batch[i].message);
      assert Novel(batch, cache)[k] == u0[k];
    }
  }

  /** Each text of `u` occurs in `ms`, and earlier texts of `u` first occur earlier in `ms`. */
  predicate InFirstSeenOrder(u: seq<string>, ms: seq<string>) {
    forall k, l | 0 <= k < l < |u| :: u[k] in ms && u[l] in ms && FirstIndex(ms, u[k]) < FirstIndex(ms, u[l])
  }

  /** The new texts appear in the order in which the batch first mentions them. */
  lemma {:induction false} NovelInFirstSeenOrder(batch: seq<Record>, cache: map<string, CacheEntry>)
    ensures InFirstSeenOrder(Novel(batch, cache), Messages(batch))
  {
    if batch != [] {
      NovelInFirstSeenOrder(batch[..|batch| - 1], cache);
      NovelOrderStep(batch, cache);
    }
  }

  lemma NovelOrderStep(batch: seq<Record>, cache: map<string, CacheEntry>)
    requires batch != [] && InFirstSeenOrder(Novel(batch[..|batch| - 1], cache), Messages(batch[..|batch| - 1]))
    ensures InFirstSeenOrder(Novel(batch, cache), Messages(batch))
  {
    var n := |batch| - 1;
    var ms := Messages(batch);
    var init := batch[..n];
    var u0 := Novel(init, cache);
    var t := batch[n].message;
    assert Messages(init) == ms[..n];
    forall k | 0 <= k < |u0| ensures u0[k] in ms[..n] {
      NovelMentioned(init, cache, k);
    }
    if !(t in cache || t in u0) {
      NovelSpec(init, cache);
      assert t !in ms[..n];
    }
    FirstSeenSnoc(u0, ms, t);
  }

  /** Extending `ms` by `t` keeps the order of `u0`, and of `u0 + [t]` when `t` is mentioned for the first time. */
  lemma FirstSeenSnoc(u0: seq<string>, ms: seq<string>, t: string)
    requires ms != [] && ms[|ms| - 1] == t
    requires InFirstSeenOrder(u0, ms[..|ms| - 1])
    requires forall k | 0 <= k < |u0| :: u0[k] in ms[..|ms| - 1]
    ensures InFirstSeenOrder(u0, ms)
    ensures t !in ms[..|ms| - 1] ==> InFirstSeenOrder(u0 + [t], ms)
  {
    var m := |ms| - 1;
    forall k | 0 <= k < |u0| ensures u0[k] in ms && FirstIndex(ms, u0[k]) == FirstIndex(ms[..m], u0[k]) {
      FirstIndexPrefix(ms, u0[k], m);
    }
    if t !in ms[..m] {
      FirstIndexUnique(ms, t, m);
      var u := u0 + [t];
      forall k, l | 0 <= k < l < |u| ensures u[k] in ms && u[l] in ms && FirstIndex(ms, u[k]) < FirstIndex(ms, u[l]) {
        assert u[k] == u0[k];
        if l < |u0| {
          assert u[l] == u0[l];
        }
      }
    }
  }

  function Firsts(pairs: seq<(nat, string)>): (r: seq<nat>)
    ensures |r| == |pairs|
  {
    if pairs == [] then [] else Firsts(pairs[..|pairs| - 1]) + [pairs[|pairs| - 1].0]
  }

  /** The positions in `pairs` whose text is one of `texts`. */
  function InTexts(pairs: seq<(nat, string)>, texts: seq<string>): seq<nat> {
    if pairs == [] then []
    else
      var n := |pairs| - 1;
      InTexts(pairs[..n], texts) + (if pairs[n].1 in texts then [pairs[n].0] else [])
  }

  /** Every position is either a hit or in `batch_map`, and none is both. */
  predicate Partitioned(batch: seq<Record>, cache: map<string, CacheEntry>) {
    multiset(Hits(batch, cache)) + multiset(Firsts(BatchMap(batch, cache))) == multiset(Range(|batch|))
  }

  lemma {:induction false} HitsAndMissesPartition(batch: seq<Record>, cache: map<string, CacheEntry>)
    ensures Partitioned(batch, cache)
  {
    if batch != [] {
      HitsAndMissesPartition(batch[..|batch| - 1], cache);
      PartitionStep(batch, cache);
    }
  }

  lemma PartitionStep(batch: seq<Record>, cache: map<string, CacheEntry>)
    requires batch != [] && Partitioned(batch[..|batch| - 1], cache)
    ensures Partitioned(batch, cache)
  {
    var n: nat := |batch| - 1;
    var h0 := multiset(Hits(batch[..n], cache));
    var f0 := multiset(Firsts(BatchMap(batch[..n], cache)));
    RangeSnoc(n);
    ShiftOne(h0, f0, n);
    if batch[n].message in cache {
      HitSnoc(batch, cache);
    } else {
      MissSnoc(batch, cache);
    }
  }

  lemma ShiftOne<T>(a: multiset<T>, b: multiset<T>, x: T)
    ensures (a + multiset{x}) + b == (a + b) + multiset{x}
    ensures a + (b + multiset{x}) == (a + b) + multiset{x}
  {
  }

  /** A cached last item adds its position to the hits and nothing to `batch_map`. */
  lemma HitSnoc(batch: seq<Record>, cache: map<string, CacheEntry>)
    requires batch != [] && batch[|batch| - 1].message in cache
    ensures var n: nat := |batch| - 1;
      && multiset(Hits(batch, cache)) == multiset(Hits(batch[..n], cache)) + multiset{n}
      && Firsts(BatchMap(batch, cache)) == Firsts(BatchMap(batch[..n], cache))
  {
    var n: nat := |batch| - 1;
    assert Hits(batch, cache) == Hits(batch[..n], cache) + [n];
    assert BatchMap(batch, cache) == BatchMap(batch[..n], cache);
  }

  /** An uncached last item adds its position to `batch_map` and nothing to the hits. */
  lemma MissSnoc(batch: seq<Record>, cache: map<string, CacheEntry>)
    requires batch != [] && batch[|batch| - 1].message !in cache
    ensures var n: nat := |batch| - 1;
      && Hits(batch, cache) == Hits(batch[..n], cache)
      && multiset(Firsts(BatchMap(batch, cache))) == multiset(Firsts(BatchMap(batch[..n], cache))) + multiset{n}
  {
    var n: nat := |batch| - 1;
    var bm := BatchMap(batch, cache);
    var bm0 := BatchMap(batch[..n], cache);
    assert bm == bm0 + [(n, batch[n].message)];
    assert bm[..|bm| - 1] == bm0;
    assert Firsts(bm) == Firsts(bm0) + [n];
  }

  lemma RangeSnoc(n: nat)
    ensures multiset(Range(n + 1)) == multiset(Range(n)) + multiset{n}
  {
    assert Range(n + 1) == Range(n) + [n];
  }

  lemma {:induction false} InTextsExtend(pairs: seq<(nat, string)>, texts: seq<string>, t: string)
    requires t !in texts
    ensures multiset(InTexts(pairs, texts + [t])) == multiset(InTexts(pairs, texts)) + multiset(SelectFor(pairs, t))
  {
    if pairs != [] {
      InTextsExtend(pairs[..|pairs| - 1], texts, t);
    }
  }

  lemma {:induction false} MissOrderIsInTexts(pairs: seq<(nat, string)>, texts: seq<string>)
    requires forall k, l | 0 <= k < l < |texts| :: texts[k] != texts[l]
    ensures multiset(MissOrder(pairs, texts)) == multiset(InTexts(pairs, texts))
  {
    if texts == [] {
      InTextsNone(pairs, texts);
    } else {
      var m := |texts| - 1;
      MissOrderIsInTexts(pairs, texts[..m]);
      assert texts == texts[..m] + [texts[m]];
      InTextsExtend(pairs, texts[..m], texts[m]);
    }
  }

  lemma {:induction false} InTextsNone(pairs: seq<(nat, string)>, texts: seq<string>)
    requires texts == []
    ensures InTexts(pairs, texts) == []
  {
    if pairs != [] {
      InTextsNone(pairs[..|pairs| - 1], texts);
    }
  }

  lemma {:induction false} InTextsAll(pairs: seq<(nat, string)>, texts: seq<string>)
    requires forall k | 0 <= k < |pairs| :: pairs[k].1 in texts
    ensures InTexts(pairs, texts) == Firsts(pairs)
  {
    if pairs != [] {
      InTextsAll(pairs[..|pairs| - 1], texts);
    }
  }

  /** Every batch item yields exactly one occurrence row: the build order is a rearrangement of the positions. */
  lemma OrderIsPermutation(batch: seq<Record>, cache: map<string, CacheEntry>)
    ensures multiset(Order(batch, cache)) == multiset(Range(|batch|))
  {
    HitsAndMissesPartition(batch, cache);
    MissesAreFirsts(batch, cache);
    BagAppend(Hits(batch, cache), MissOrder(BatchMap(batch, cache), Novel(batch, cache)), Firsts(BatchMap(batch, cache)));
  }

  /** The second loop visits exactly the positions of `batch_map`. */
  lemma MissesAreFirsts(batch: seq<Record>, cache: map<string, CacheEntry>)
    ensures multiset(MissOrder(BatchMap(batch, cache), Novel(batch, cache))) == multiset(Firsts(BatchMap(batch, cache)))
  {
    var pairs := BatchMap(batch, cache);
    var novel := Novel(batch, cache);
    NovelSpec(batch, cache);
    MissOrderIsInTexts(pairs, novel);
    forall k | 0 <= k < |pairs| ensures pairs[k].1 in novel {
      assert batch[pairs[k].0].message == pairs[k].1;
    }
    InTextsAll(pairs, novel);
  }

  lemma BagAppend<T>(a: seq<T>, b: seq<T>, c: seq<T>)
    requires multiset(b) == multiset(c)
    ensures multiset(a + b) == multiset(a) + multiset(c)
  {
  }

  /** The same, unpacked: each position once, nothing else. */
  lemma OrderCoversBatchOnce(batch: seq<Record>, cache: map<string, CacheEntry>)
    ensures var order := Order(batch, cache);
      && |order| == |batch|
      && (forall k | 0 <= k < |order| :: order[k] < |batch|)
      && (forall k, l | 0 <= k < l < |order| :: order[k] != order[l])
      && (forall i | 0 <= i < |batch| :: i in order)
  {
    OrderIsPermutation(batch, cache);
    PermutationOfRange(Order(batch, cache), |batch|);
  }

  /** `template_cache` after the second loop: each new text `k` gets `(next id + k, vec_count + k)`. */
  function FinalCache(cache: map<string, CacheEntry>, novel: seq<string>, nextId: nat, vecCount: nat): map<string, CacheEntry> {
    if novel == [] then cache
    else
      var m := |novel| - 1;
      FinalCache(cache, novel[..m], nextId, vecCount)[novel[m] := CacheEntry(nextId + m, vecCount + m)]
  }

  /** The INSERTed template rows: `first_seen = last_seen = base_time` and the default count 1. */
  function NewRows(novel: seq<string>, nextId: nat, vecCount: nat, base: int): (rows: seq<TemplateRow>)
    ensures |rows| == |novel|
  {
    seq(|novel|, k requires 0 <= k < |novel| => TemplateRow(nextId + k, novel[k], vecCount + k, base, base, 1))
  }

  /** `updates`: one `(item_ts, tid)` per cache hit, in batch order. */
  function Updates(batch: seq<Record>, cache: map<string, CacheEntry>, base: int): seq<Update> {
    if batch == [] then []
    else
      var n := |batch| - 1;
      var t := batch[n].message;
      Updates(batch[..n], cache, base) + (if t in cache then [Update(Stamp(base, n), cache[t].templateId)] else [])
  }

  /** The row `_prepare_occ` builds for item `i`: id and timestamp from the stamp, priority defaulting to 6. */
  function OccFor(base: int, i: nat, item: Record, tid: nat): OccurrenceRow {
    OccurrenceRow(Stamp(base, i), tid, Stamp(base, i), PriorityOf(item))
  }

  /** The parameter rows `_prepare_occ` builds: one per parameter, at its list position. */
  function ParamsFor(oid: int, ps: seq<string>): (rows: seq<ParameterRow>)
    ensures |rows| == |ps|
  {
    seq(|ps|, j requires 0 <= j < |ps| => ParameterRow(oid, j, ps[j]))
  }

  ghost predicate Serves(batch: seq<Record>, cache: map<string, CacheEntry>, idxs: seq<nat>) {
    forall k | 0 <= k < |idxs| :: idxs[k] < |batch| && batch[idxs[k]].message in cache
  }

  /** `occ_insert` after the items at `idxs` have been prepared, in that order. */
  function OccRows(batch: seq<Record>, base: int, cache: map<string, CacheEntry>, idxs: seq<nat>): (rows: seq<OccurrenceRow>)
    requires Serves(batch, cache, idxs)
    ensures |rows| == |idxs|
  {
    if idxs == [] then []
    else
      var m := |idxs| - 1;
      var i := idxs[m];
      OccRows(batch, base, cache, idxs[..m]) + [OccFor(base, i, batch[i], cache[batch[i].message].templateId)]
  }

  /** The `k`-th row is the one prepared for the `k`-th position. */
  lemma {:induction false} OccRowsAt(batch: seq<Record>, base: int, cache: map<string, CacheEntry>, idxs: seq<nat>, k: nat)
    requires Serves(batch, cache, idxs) && k < |idxs|
    ensures OccRows(batch, base, cache, idxs)[k] == OccFor(base, idxs[k], batch[idxs[k]], cache[batch[idxs[k]].message].templateId)
  {
    var m := |idxs| - 1;
    if k < m {
      assert idxs[..m][k] == idxs[k];
      OccRowsAt(batch, base, cache, idxs[..m], k);
    }
  }

  /** `param_insert` after the items at `idxs` have been prepared, in that order. */
  function ParamRows(batch: seq<Record>, base: int, idxs: seq<nat>): seq<ParameterRow>
    requires forall k | 0 <= k < |idxs| :: idxs[k] < |batch|
  {
    if idxs == [] then []
    else
      var m := |idxs| - 1;
      var i := idxs[m];
      ParamRows(batch, base, idxs[..m]) + ParamsFor(Stamp(base, i), ParamsOf(batch[i]))
  }

  /** The commit succeeds unless a new occurrence id is already taken (INTEGER PRIMARY KEY). */
  predicate NoClash(existing: seq<OccurrenceRow>, incoming: seq<OccurrenceRow>) {
    forall k, m | 0 <= k < |incoming| && 0 <= m < |existing| :: incoming[k].id != existing[m].id
  }

  /** The new texts and their items: distinct, uncached, each item's text cached afterwards. */
  lemma FinalCacheSpec(cache: map<string, CacheEntry>, novel: seq<string>, nextId: nat, vecCount: nat)
    requires forall k, l | 0 <= k < l < |novel| :: novel[k] != novel[l]
    requires forall k | 0 <= k < |novel| :: novel[k] !in cache
    ensures var fc := FinalCache(cache, novel, nextId, vecCount);
      && (forall t | t in cache :: t in fc && fc[t] == cache[t])
      && (forall k | 0 <= k < |novel| :: novel[k] in fc && fc[novel[k]] == CacheEntry(nextId + k, vecCount + k))
      && (forall t | t in fc :: t in cache || t in novel)
  {
    forall t | t in cache {
      FinalKeepsCached(cache, novel, nextId, vecCount, t);
    }
    forall k | 0 <= k < |novel| {
      FinalHasNew(cache, novel, nextId, vecCount, k);
    }
    forall t | t in FinalCache(cache, novel, nextId, vecCount) {
      FinalHasNothingElse(cache, novel, nextId, vecCount, t);
    }
  }

  lemma {:induction false} FinalKeepsCached(cache: map<string, CacheEntry>, novel: seq<string>, nextId: nat, vecCount: nat, t: string)
    requires forall k | 0 <= k < |novel| :: novel[k] !in cache
    requires t in cache
    ensures var fc := FinalCache(cache, novel, nextId, vecCount); t in fc && fc[t] == cache[t]
  {
    if novel != [] {
      var m := |novel| - 1;
      FinalKeepsCached(cache, novel[..m], nextId, vecCount, t);
      assert novel[m] != t;
    }
  }

  lemma {:induction false} FinalHasNew(cache: map<string, CacheEntry>, novel: seq<string>, nextId: nat, vecCount: nat, k: nat)
    requires forall k, l | 0 <= k < l < |novel| :: novel[k] != novel[l]
    requires k < |novel|
    ensures var fc := FinalCache(cache, novel, nextId, vecCount);
      novel[k] in fc && fc[novel[k]] == CacheEntry(nextId + k, vecCount + k)
  {
    var m := |novel| - 1;
    if k < m {
      var init := novel[..m];
      assert init[k] == novel[k] != novel[m];
      FinalHasNew(cache, init, nextId, vecCount, k);
    }
  }

  lemma {:induction false} FinalHasNothingElse(cache: map<string, CacheEntry>, novel: seq<string>, nextId: nat, vecCount: nat, t: string)
    requires t in FinalCache(cache, novel, nextId, vecCount)
    ensures t in cache || t in novel
  {
    if novel != [] {
      var m := |novel| - 1;
      if t != novel[m] {
        FinalHasNothingElse(cache, novel[..m], nextId, vecCount, t);
        if t in novel[..m] {
          var k := FirstIndex(novel[..m], t);
          assert novel[k] == t;
        }
      }
    }
  }

  /**
   * After the call every batch text is cached, earlier entries are unchanged, and the new texts
   * hold the vector indices `vec_count, vec_count + 1, ...` in order, with no gaps and no reuse.
   */
  lemma CacheAfterBatch(batch: seq<Record>, cache: map<string, CacheEntry>, nextId: nat, vecCount: nat)
    ensures var novel := Novel(batch, cache);
      var fc := FinalCache(cache, novel, nextId, vecCount);
      && (forall i | 0 <= i < |batch| :: batch[i].message in fc)
      && (forall t | t in cache :: t in fc && fc[t] == cache[t])
      && (forall k | 0 <= k < |novel| :: novel[k] in fc && fc[novel[k]] == CacheEntry(nextId + k, vecCount + k))
      && (forall t | t in fc && t !in cache :: vecCount <= fc[t].vectorIdx < vecCount + |novel|)
  {
    var novel := Novel(batch, cache);
    NovelSpec(batch, cache);
    FinalCacheSpec(cache, novel, nextId, vecCount);
  }

  /** The occurrence rows of one call, in the order they are built. */
  function BatchOccurrences(batch: seq<Record>, cache: map<string, CacheEntry>, nextId: nat, vecCount: nat, base: int): seq<OccurrenceRow> {
    var fc := FinalCache(cache, Novel(batch, cache), nextId, vecCount);
    OrderCoversBatchOnce(batch, cache);
    CacheAfterBatch(batch, cache, nextId, vecCount);
    OccRows(batch, base, fc, Order(batch, cache))
  }

  /** The parameter rows of one call. */
  function BatchParameters(batch: seq<Record>, cache: map<string, CacheEntry>, base: int): seq<ParameterRow> {
    OrderCoversBatchOnce(batch, cache);
    ParamRows(batch, base, Order(batch, cache))
  }

  /** The template table after a commit: the INSERTed rows appended, then the UPDATEs applied. */
  function TemplatesAfter(templates: seq<TemplateRow>, cache: map<string, CacheEntry>, vecCount: nat, batch: seq<Record>, base: int): (rows: seq<TemplateRow>)
    ensures |rows| == |templates| + |Novel(batch, cache)|
  {
    ApplyUpdates(templates + NewRows(Novel(batch, cache), NextTemplateId(templates), vecCount, base), Updates(batch, cache, base))
  }

  /** The UPDATEs keep every row's id, text and vector index. */
  lemma TemplatesAfterKeys(templates: seq<TemplateRow>, cache: map<string, CacheEntry>, vecCount: nat, batch: seq<Record>, base: int)
    ensures var rows0 := templates + NewRows(Novel(batch, cache), NextTemplateId(templates), vecCount, base);
      var rows := TemplatesAfter(templates, cache, vecCount, batch, base);
      forall j | 0 <= j < |rows0| :: rows[j].id == rows0[j].id && rows[j].text == rows0[j].text && rows[j].vectorIdx == rows0[j].vectorIdx
  {
    var rows0 := templates + NewRows(Novel(batch, cache), NextTemplateId(templates), vecCount, base);
    forall j | 0 <= j < |rows0| {
      ApplyUpdatesSpec(rows0, Updates(batch, cache, base), j);
    }
  }

  datatype BatchResult = BatchResult(tables: Tables, cache: map<string, CacheEntry>, vecCount: nat, appended: nat, committed: bool)

  /**
   * `add_batch` as a function of the state before the call. The vector file append, `vec_count`
   * and the cache updates happen before the transaction and survive a failed commit; the template
   * INSERTs, the UPDATEs and both `executemany` INSERTs are rolled back together.
   */
  function AddBatchSpec(t: Tables, cache: map<string, CacheEntry>, vecCount: nat, batch: seq<Record>, base: int): BatchResult {
    var novel := Novel(batch, cache);
    var nextId := NextTemplateId(t.templates);
    var occ := BatchOccurrences(batch, cache, nextId, vecCount, base);
    var ok := NoClash(t.occurrences, occ);
    var after := Tables(
      TemplatesAfter(t.templates, cache, vecCount, batch, base),
      t.occurrences + occ,
      t.parameters + BatchParameters(batch, cache, base));
    BatchResult(if ok then after else t, FinalCache(cache, novel, nextId, vecCount), vecCount + |novel|, |novel|, ok)
  }

  /** An empty batch changes nothing. */
  lemma EmptyBatchIsNoop(t: Tables, cache: map<string, CacheEntry>, vecCount: nat, base: int)
    ensures AddBatchSpec(t, cache, vecCount, [], base) == BatchResult(t, cache, vecCount, 0, true)
  {
    assert Order([], cache) == [];
  }

  /** The occurrence ids of one call are pairwise distinct, and each is the stamp of a batch position. */
  lemma OccurrenceIdsDistinct(batch: seq<Record>, cache: map<string, CacheEntry>, nextId: nat, vecCount: nat, base: int)
    ensures var occ := BatchOccurrences(batch, cache, nextId, vecCount, base);
      && |occ| == |batch|
      && (forall k, l | 0 <= k < l < |occ| :: occ[k].id != occ[l].id)
      && (forall k | 0 <= k < |occ| :: occ[k].id == Stamp(base, Order(batch, cache)[k]) && Order(batch, cache)[k] < |batch|)
  {
    var order := Order(batch, cache);
    OrderCoversBatchOnce(batch, cache);
    CacheAfterBatch(batch, cache, nextId, vecCount);
    var fc := FinalCache(cache, Novel(batch, cache), nextId, vecCount);
    var occ := BatchOccurrences(batch, cache, nextId, vecCount, base);
    forall k | 0 <= k < |occ| ensures occ[k].id == Stamp(base, order[k]) {
      OccRowsAt(batch, base, fc, order, k);
    }
    forall k, l | 0 <= k < l < |occ| ensures occ[k].id != occ[l].id {
      if order[k] < order[l] {
        StampsIncrease(base, order[k], order[l]);
      } else {
        StampsIncrease(base, order[l], order[k]);
      }
    }
  }

  /**
   * Each batch item has its occurrence row: its stamp as id and timestamp, the template id its
   * text is cached under after the call, and its priority (6 when missing).
   */
  lemma EveryItemHasItsOccurrence(batch: seq<Record>, cache: map<string, CacheEntry>, nextId: nat, vecCount: nat, base: int, i: nat)
    requires i < |batch|
    ensures var occ := BatchOccurrences(batch, cache, nextId, vecCount, base);
      var fc := FinalCache(cache, Novel(batch, cache), nextId, vecCount);
      && batch[i].message in fc
      && exists k | 0 <= k < |occ| ::
           occ[k] == OccurrenceRow(Stamp(base, i), fc[batch[i].message].templateId, Stamp(base, i), PriorityOf(batch[i]))
  {
    var order := Order(batch, cache);
    OrderCoversBatchOnce(batch, cache);
    CacheAfterBatch(batch, cache, nextId, vecCount);
    var fc := FinalCache(cache, Novel(batch, cache), nextId, vecCount);
    var occ := OccRows(batch, base, fc, order);
    assert occ == BatchOccurrences(batch, cache, nextId, vecCount, base);
    assert i in order;
    var k :| 0 <= k < |order| && order[k] == i;
    OccRowsAt(batch, base, fc, order, k);
  }

  /** Row `j` after a commit: an old row keeps its id, text and vector index; a new one gets the next ones. */
  lemma RowAfter(templates: seq<TemplateRow>, cache: map<string, CacheEntry>, vecCount: nat, batch: seq<Record>, base: int, j: nat)
    requires j < |templates| + |Novel(batch, cache)|
    ensures var r := TemplatesAfter(templates, cache, vecCount, batch, base)[j];
      var T := templates;
      && r.id == (if j < |T| then T[j].id else NextTemplateId(T) + (j - |T|))
      && r.text == (if j < |T| then T[j].text else Novel(batch, cache)[j - |T|])
      && r.vectorIdx == (if j < |T| then T[j].vectorIdx else vecCount + (j - |T|))
  {
    var rows0 := templates + NewRows(Novel(batch, cache), NextTemplateId(templates), vecCount, base);
    ApplyUpdatesSpec(rows0, Updates(batch, cache, base), j);
  }

  /** A text is cached after the call iff it was cached before or is new; old entries are unchanged. */
  lemma FinalOld(batch: seq<Record>, cache: map<string, CacheEntry>, nextId: nat, vecCount: nat, t: string)
    ensures var novel := Novel(batch, cache);
      var fc := FinalCache(cache, novel, nextId, vecCount);
      && (t in fc <==> t in cache || t in novel)
      && (t in cache ==> fc[t] == cache[t])
  {
    NovelSpec(batch, cache);
    FinalCacheSpec(cache, Novel(batch, cache), nextId, vecCount);
  }

  /** The `k`-th new text was not cached and is cached afterwards as `(next id + k, vec_count + k)`. */
  lemma FinalNew(batch: seq<Record>, cache: map<string, CacheEntry>, nextId: nat, vecCount: nat, k: nat)
    requires k < |Novel(batch, cache)|
    ensures var novel := Novel(batch, cache);
      var fc := FinalCache(cache, novel, nextId, vecCount);
      && novel[k] !in cache && novel[k] in fc && fc[novel[k]] == CacheEntry(nextId + k, vecCount + k)
  {
    NovelSpec(batch, cache);
    FinalCacheSpec(cache, Novel(batch, cache), nextId, vecCount);
  }

  lemma DenseAfterCommit(templates: seq<TemplateRow>, cache: map<string, CacheEntry>, vecCount: nat, batch: seq<Record>, base: int)
    requires Synced(templates, cache, vecCount)
    ensures Dense(TemplatesAfter(templates, cache, vecCount, batch, base))
  {
    var T := templates;
    var novel := Novel(batch, cache);
    var rows := TemplatesAfter(T, cache, vecCount, batch, base);
    MaxIdOfDense(T);
    forall i | 0 <= i < |rows| ensures rows[i].id == i + 1 && rows[i].vectorIdx == i {
      RowAfter(T, cache, vecCount, batch, base, i);
    }
    NovelSpec(batch, cache);
    forall i, j | 0 <= i < j < |rows| ensures rows[i].text != rows[j].text {
      RowAfter(T, cache, vecCount, batch, base, i);
      RowAfter(T, cache, vecCount, batch, base, j);
      if i < |T| && j >= |T| {
        assert T[i].text in cache;
      }
    }
  }

  /** Every row after a commit is cached under its text with its own id and vector index. */
  lemma RowsCachedAfterCommit(templates: seq<TemplateRow>, cache: map<string, CacheEntry>, vecCount: nat, batch: seq<Record>, base: int)
    requires Synced(templates, cache, vecCount)
    ensures var rows := TemplatesAfter(templates, cache, vecCount, batch, base);
      var fc := FinalCache(cache, Novel(batch, cache), NextTemplateId(templates), vecCount);
      forall j | 0 <= j < |rows| :: rows[j].text in fc && fc[rows[j].text] == CacheEntry(j + 1, j)
  {
    var T := templates;
    var novel := Novel(batch, cache);
    MaxIdOfDense(T);
    var nextId := NextTemplateId(T);
    var rows := TemplatesAfter(T, cache, vecCount, batch, base);
    var fc := FinalCache(cache, novel, nextId, vecCount);
    forall j | 0 <= j < |rows| ensures rows[j].text in fc && fc[rows[j].text] == CacheEntry(j + 1, j) {
      RowAfter(T, cache, vecCount, batch, base, j);
      if j < |T| {
        FinalOld(batch, cache, nextId, vecCount, T[j].text);
      } else {
        FinalNew(batch, cache, nextId, vecCount, j - |T|);
      }
    }
  }

  /** Every cache entry after a commit names a row holding its text. */
  lemma CacheNamesRowsAfterCommit(templates: seq<TemplateRow>, cache: map<string, CacheEntry>, vecCount: nat, batch: seq<Record>, base: int)
    requires Synced(templates, cache, vecCount)
    ensures var rows := TemplatesAfter(templates, cache, vecCount, batch, base);
      var fc := FinalCache(cache, Novel(batch, cache), NextTemplateId(templates), vecCount);
      forall x | x in fc :: fc[x].vectorIdx < |rows| && rows[fc[x].vectorIdx].text == x
  {
    var fc := FinalCache(cache, Novel(batch, cache), NextTemplateId(templates), vecCount);
    forall x | x in fc {
      CacheNamesRow(templates, cache, vecCount, batch, base, x);
    }
  }

  lemma CacheNamesRow(templates: seq<TemplateRow>, cache: map<string, CacheEntry>, vecCount: nat, batch: seq<Record>, base: int, x: string)
    requires Synced(templates, cache, vecCount)
    requires x in FinalCache(cache, Novel(batch, cache), NextTemplateId(templates), vecCount)
    ensures var rows := TemplatesAfter(templates, cache, vecCount, batch, base);
      var fc := FinalCache(cache, Novel(batch, cache), NextTemplateId(templates), vecCount);
      fc[x].vectorIdx < |rows| && rows[fc[x].vectorIdx].text == x
  {
    FinalOld(batch, cache, NextTemplateId(templates), vecCount, x);
    if x in cache {
      CachedNamesOldRow(templates, cache, vecCount, batch, base, x);
    } else {
      CachedNamesNewRow(templates, cache, vecCount, batch, base, x);
    }
  }

  lemma CachedNamesOldRow(templates: seq<TemplateRow>, cache: map<string, CacheEntry>, vecCount: nat, batch: seq<Record>, base: int, x: string)
    requires x in cache && cache[x].vectorIdx < |templates| && templates[cache[x].vectorIdx].text == x
    ensures var rows := TemplatesAfter(templates, cache, vecCount, batch, base);
      var fc := FinalCache(cache, Novel(batch, cache), NextTemplateId(templates), vecCount);
      x in fc && fc[x].vectorIdx < |rows| && rows[fc[x].vectorIdx].text == x
  {
    FinalOld(batch, cache, NextTemplateId(templates), vecCount, x);
    RowAfter(templates, cache, vecCount, batch, base, cache[x].vectorIdx);
  }

  lemma CachedNamesNewRow(templates: seq<TemplateRow>, cache: map<string, CacheEntry>, vecCount: nat, batch: seq<Record>, base: int, x: string)
    requires vecCount == |templates| && x in Novel(batch, cache)
    ensures var rows := TemplatesAfter(templates, cache, vecCount, batch, base);
      var fc := FinalCache(cache, Novel(batch, cache), NextTemplateId(templates), vecCount);
      x in fc && fc[x].vectorIdx < |rows| && rows[fc[x].vectorIdx].text == x
  {
    var novel := Novel(batch, cache);
    var k := FirstIndex(novel, x);
    FinalNew(batch, cache, NextTemplateId(templates), vecCount, k);
    RowAfter(templates, cache, vecCount, batch, base, |templates| + k);
    var fc := FinalCache(cache, novel, NextTemplateId(templates), vecCount);
    assert fc[x].vectorIdx == |templates| + k;
    assert TemplatesAfter(templates, cache, vecCount, batch, base)[|templates| + k].text == novel[k];
  }

  /** After a commit the writer is in sync again: new rows are numbered and indexed right after the old ones. */
  lemma SyncedAfterCommit(templates: seq<TemplateRow>, cache: map<string, CacheEntry>, vecCount: nat, batch: seq<Record>, base: int)
    requires Synced(templates, cache, vecCount)
    ensures Synced(TemplatesAfter(templates, cache, vecCount, batch, base),
                   FinalCache(cache, Novel(batch, cache), NextTemplateId(templates), vecCount),
                   vecCount + |Novel(batch, cache)|)
  {
    DenseAfterCommit(templates, cache, vecCount, batch, base);
    RowsCachedAfterCommit(templates, cache, vecCount, batch, base);
    CacheNamesRowsAfterCommit(templates, cache, vecCount, batch, base);
  }

  /** Every template row's text stays cached, whatever the outcome, so a new text is never already a row. */
  lemma CachedTextsKept(templates: seq<TemplateRow>, cache: map<string, CacheEntry>, vecCount: nat, batch: seq<Record>, base: int)
    requires CachedTexts(templates, cache)
    ensures var fc := FinalCache(cache, Novel(batch, cache), NextTemplateId(templates), vecCount);
      && CachedTexts(templates, fc)
      && CachedTexts(TemplatesAfter(templates, cache, vecCount, batch, base), fc)
      && forall k, i | 0 <= k < |Novel(batch, cache)| && 0 <= i < |templates| :: templates[i].text != Novel(batch, cache)[k]
  {
    var T := templates;
    var novel := Novel(batch, cache);
    var nextId := NextTemplateId(T);
    var fc := FinalCache(cache, novel, nextId, vecCount);
    var rows := TemplatesAfter(T, cache, vecCount, batch, base);
    forall i | 0 <= i < |T| ensures T[i].text in fc {
      FinalOld(batch, cache, nextId, vecCount, T[i].text);
    }
    forall j | 0 <= j < |rows| ensures rows[j].text in fc {
      RowAfter(T, cache, vecCount, batch, base, j);
      if j < |T| {
        FinalOld(batch, cache, nextId, vecCount, T[j].text);
      } else {
        FinalNew(batch, cache, nextId, vecCount, j - |T|);
      }
    }
    forall k, i | 0 <= k < |novel| && 0 <= i < |T| ensures T[i].text != novel[k] {
      FinalNew(batch, cache, nextId, vecCount, k);
    }
  }

  /** A committed batch keeps the occurrence ids unique; a rolled-back one leaves the table as it was. */
  lemma PrimaryKeyKept(t: Tables, cache: map<string, CacheEntry>, vecCount: nat, batch: seq<Record>, base: int)
    requires UniqueOccurrenceIds(t.occurrences)
    ensures var r := AddBatchSpec(t, cache, vecCount, batch, base);
      && UniqueOccurrenceIds(r.tables.occurrences)
      && (!r.committed ==> r.tables == t)
  {
    var occ := BatchOccurrences(batch, cache, NextTemplateId(t.templates), vecCount, base);
    OccurrenceIdsDistinct(batch, cache, NextTemplateId(t.templates), vecCount, base);
    var all := t.occurrences + occ;
    if NoClash(t.occurrences, occ) {
      forall i, j | 0 <= i < j < |all| ensures all[i].id != all[j].id {
        if i >= |t.occurrences| {
          assert all[i] == occ[i - |t.occurrences|] && all[j] == occ[j - |t.occurrences|];
        } else if j >= |t.occurrences| {
          assert all[j] == occ[j - |t.occurrences|];
        }
      }
    }
  }

  lemma StampInjective(base: int, i: nat, j: nat)
    requires Stamp(base, i) == Stamp(base, j)
    ensures i == j
  {
  }

  lemma RowsOfParamsFor(oid: int, ps: seq<string>, other: int)
    ensures RowsOf(ParamsFor(oid, ps), other) == if other == oid then ParamsFor(oid, ps) else []
  {
    if other == oid {
      RowsOfAll(ParamsFor(oid, ps), other);
    } else {
      RowsOfAbsent(ParamsFor(oid, ps), other);
    }
  }

  lemma {:induction false} ParamRowsOfAbsentItem(batch: seq<Record>, base: int, idxs: seq<nat>, i: nat)
    requires forall k | 0 <= k < |idxs| :: idxs[k] < |batch|
    requires i !in idxs
    ensures RowsOf(ParamRows(batch, base, idxs), Stamp(base, i)) == []
  {
    if idxs != [] {
      var m := |idxs| - 1;
      ParamRowsOfAbsentItem(batch, base, idxs[..m], i);
      RowsOfAppend(ParamRows(batch, base, idxs[..m]), ParamsFor(Stamp(base, idxs[m]), ParamsOf(batch[idxs[m]])), Stamp(base, i));
      RowsOfParamsFor(Stamp(base, idxs[m]), ParamsOf(batch[idxs[m]]), Stamp(base, i));
      if Stamp(base, idxs[m]) == Stamp(base, i) {
        StampInjective(base, idxs[m], i);
      }
    }
  }

  /** Among the rows built for distinct positions, those of item `i` are exactly its own parameter rows. */
  lemma {:induction false} ParamRowsOfItem(batch: seq<Record>, base: int, idxs: seq<nat>, i: nat)
    requires forall k | 0 <= k < |idxs| :: idxs[k] < |batch|
    requires forall k, l | 0 <= k < l < |idxs| :: idxs[k] != idxs[l]
    requires i in idxs
    ensures i < |batch| && RowsOf(ParamRows(batch, base, idxs), Stamp(base, i)) == ParamsFor(Stamp(base, i), ParamsOf(batch[i]))
  {
    var m := |idxs| - 1;
    var init := idxs[..m];
    var last := idxs[m];
    RowsOfAppend(ParamRows(batch, base, init), ParamsFor(Stamp(base, last), ParamsOf(batch[last])), Stamp(base, i));
    RowsOfParamsFor(Stamp(base, last), ParamsOf(batch[last]), Stamp(base, i));
    if last == i {
      assert i !in init;
      ParamRowsOfAbsentItem(batch, base, init, i);
    } else {
      assert i in init by {
        var k :| 0 <= k < |idxs| && idxs[k] == i;
        assert init[k] == i;
      }
      ParamRowsOfItem(batch, base, init, i);
      if Stamp(base, last) == Stamp(base, i) {
        StampInjective(base, last, i);
      }
    }
  }

  /** Reading one occurrence's rows back by position returns its parameters in list order. */
  lemma ParamValuesOfParamsFor(oid: int, ps: seq<string>)
    ensures Values(SortDesc(ParamsFor(oid, ps), ByPosition)) == ps
  {
    var rows := ParamsFor(oid, ps);
    assert SortedDesc(rows, ByPosition);
    SortDescOfSorted(rows, ByPosition);
  }

  /** Earlier parameter rows belong to earlier occurrences, so none carries an id the new batch uses. */
  lemma EarlierRowsAbsent(t: Tables, occ: seq<OccurrenceRow>, k: nat)
    requires ParametersReferToOccurrences(t)
    requires NoClash(t.occurrences, occ)
    requires k < |occ|
    ensures RowsOf(t.parameters, occ[k].id) == []
  {
    forall j | 0 <= j < |t.parameters| ensures t.parameters[j].occurrenceId != occ[k].id {
      assert t.parameters[j] in t.parameters;
      var o :| o in t.occurrences && o.id == t.parameters[j].occurrenceId;
    }
    RowsOfAbsent(t.parameters, occ[k].id);
  }

  /**
   * Once a batch commits, the parameter query the search path issues for item `i`'s occurrence
   * returns exactly `i`'s parameters, in order: the earlier rows all belong to other occurrences.
   */
  lemma ParamsRoundTrip(t: Tables, cache: map<string, CacheEntry>, nextId: nat, vecCount: nat, batch: seq<Record>, base: int, i: nat)
    requires ParametersReferToOccurrences(t)
    requires NoClash(t.occurrences, BatchOccurrences(batch, cache, nextId, vecCount, base))
    requires i < |batch|
    ensures ParamValues(t.parameters + BatchParameters(batch, cache, base), Stamp(base, i)) == ParamsOf(batch[i])
  {
    var oid := Stamp(base, i);
    var occ := BatchOccurrences(batch, cache, nextId, vecCount, base);
    var order := Order(batch, cache);
    OrderCoversBatchOnce(batch, cache);
    OccurrenceIdsDistinct(batch, cache, nextId, vecCount, base);
    assert i in order;
    var k :| 0 <= k < |order| && order[k] == i;
    EarlierRowsAbsent(t, occ, k);
    var added := BatchParameters(batch, cache, base);
    assert added == ParamRows(batch, base, order);
    RowsOfAppend(t.parameters, added, oid);
    ParamRowsOfItem(batch, base, order, i);
    var mine := ParamsFor(oid, ParamsOf(batch[i]));
    assert RowsOf(t.parameters + added, oid) == [] + mine == mine;
    ParamValuesOfParamsFor(oid, ParamsOf(batch[i]));
    assert ParamValues(t.parameters + added, oid) == Values(SortDesc(mine, ByPosition));
  }

  /** How many batch items carry `text`. */
  function Mentions(batch: seq<Record>, text: string): nat {
    if batch == [] then 0
    else Mentions(batch[..|batch| - 1], text) + (if batch[|batch| - 1].message == text then 1 else 0)
  }

  /** The position of the last batch item carrying `text`. */
  function LastMention(batch: seq<Record>, text: string): Option<nat> {
    if batch == [] then None
    else if batch[|batch| - 1].message == text then Some(|batch| - 1)
    else LastMention(batch[..|batch| - 1], text)
  }

  lemma BumpsSnoc(ups: seq<Update>, u: Update, id: nat, previous: int)
    ensures Bumps(ups + [u], id) == Bumps(ups, id) + (if u.templateId == id then 1 else 0)
    ensures LastSeenAfter(ups + [u], id, previous) == if u.templateId == id then u.lastSeen else LastSeenAfter(ups, id, previous)
  {
    assert (ups + [u])[..|ups|] == ups;
  }

  /**
   * In sync, the UPDATEs of a batch bump the row of text `T[i]` once per mention of that text,
   * and set its `last_seen` to the stamp of the last mention (or leave it when there is none).
   */
  lemma {:induction false} UpdatesOfRow(templates: seq<TemplateRow>, cache: map<string, CacheEntry>, vecCount: nat, batch: seq<Record>, base: int, i: nat, previous: int)
    requires Synced(templates, cache, vecCount)
    requires i < |templates|
    ensures Bumps(Updates(batch, cache, base), i + 1) == Mentions(batch, templates[i].text)
    ensures LastSeenAfter(Updates(batch, cache, base), i + 1, previous)
      == match LastMention(batch, templates[i].text) case None => previous case Some(j) => Stamp(base, j)
  {
    if batch != [] {
      var n := |batch| - 1;
      var init := batch[..n];
      UpdatesOfRow(templates, cache, vecCount, init, base, i, previous);
      var t := batch[n].message;
      if t in cache {
        assert Updates(batch, cache, base) == Updates(init, cache, base) + [Update(Stamp(base, n), cache[t].templateId)];
        BumpsSnoc(Updates(init, cache, base), Update(Stamp(base, n), cache[t].templateId), i + 1, previous);
        var v := cache[t].vectorIdx;
        assert templates[v].text == t;
        assert cache[templates[v].text] == CacheEntry(v + 1, v);
        assert cache[t].templateId == i + 1 <==> t == templates[i].text;
      } else {
        assert Updates(batch, cache, base) == Updates(init, cache, base);
        assert t != templates[i].text;
      }
    }
  }

  /** In sync, every UPDATE names an existing row, never one INSERTed by the same batch. */
  lemma {:induction false} UpdatesNameOldRows(templates: seq<TemplateRow>, cache: map<string, CacheEntry>, vecCount: nat, batch: seq<Record>, base: int, id: nat, previous: int)
    requires Synced(templates, cache, vecCount)
    requires id > |templates|
    ensures Bumps(Updates(batch, cache, base), id) == 0
    ensures LastSeenAfter(Updates(batch, cache, base), id, previous) == previous
  {
    if batch != [] {
      var n := |batch| - 1;
      var init := batch[..n];
      UpdatesNameOldRows(templates, cache, vecCount, init, base, id, previous);
      var t := batch[n].message;
      if t in cache {
        assert Updates(batch, cache, base) == Updates(init, cache, base) + [Update(Stamp(base, n), cache[t].templateId)];
        BumpsSnoc(Updates(init, cache, base), Update(Stamp(base, n), cache[t].templateId), id, previous);
        var v := cache[t].vectorIdx;
        assert templates[v].text == t;
        assert cache[templates[v].text] == CacheEntry(v + 1, v);
      } else {
        assert Updates(batch, cache, base) == Updates(init, cache, base);
      }
    }
  }

  /**
   * After a commit in sync: an existing row's count grows by the number of items carrying its text
   * and its `last_seen` moves to the stamp of the last of them; a new text's row stays as INSERTed,
   * with count 1 and `first_seen = last_seen = base_time`, however often the batch repeats it.
   */
  lemma TemplateRowAfterCommit(templates: seq<TemplateRow>, cache: map<string, CacheEntry>, vecCount: nat, batch: seq<Record>, base: int, j: nat)
    requires Synced(templates, cache, vecCount)
    requires j < |templates| + |Novel(batch, cache)|
    ensures var r := TemplatesAfter(templates, cache, vecCount, batch, base)[j];
      if j < |templates| then
        var old_ := templates[j];
        r == old_.(count := old_.count + Mentions(batch, old_.text),
                   lastSeen := match LastMention(batch, old_.text) case None => old_.lastSeen case Some(m) => Stamp(base, m))
      else
        r == TemplateRow(j + 1, Novel(batch, cache)[j - |templates|], j, base, base, 1)
  {
    if j < |templates| {
      OldRowAfterCommit(templates, cache, vecCount, batch, base, j);
    } else {
      NewRowAfterCommit(templates, cache, vecCount, batch, base, j);
    }
  }

  lemma OldRowAfterCommit(templates: seq<TemplateRow>, cache: map<string, CacheEntry>, vecCount: nat, batch: seq<Record>, base: int, j: nat)
    requires Synced(templates, cache, vecCount)
    requires j < |templates|
    ensures var r := TemplatesAfter(templates, cache, vecCount, batch, base)[j];
      var old_ := templates[j];
      r == old_.(count := old_.count + Mentions(batch, old_.text),
                 lastSeen := match LastMention(batch, old_.text) case None => old_.lastSeen case Some(m) => Stamp(base, m))
  {
    var rows0 := templates + NewRows(Novel(batch, cache), NextTemplateId(templates), vecCount, base);
    assert rows0[j] == templates[j];
    ApplyUpdatesSpec(rows0, Updates(batch, cache, base), j);
    UpdatesOfRow(templates, cache, vecCount, batch, base, j, templates[j].lastSeen);
  }

  lemma NewRowAfterCommit(templates: seq<TemplateRow>, cache: map<string, CacheEntry>, vecCount: nat, batch: seq<Record>, base: int, j: nat)
    requires Synced(templates, cache, vecCount)
    requires |templates| <= j < |templates| + |Novel(batch, cache)|
    ensures TemplatesAfter(templates, cache, vecCount, batch, base)[j]
      == TemplateRow(j + 1, Novel(batch, cache)[j - |templates|], j, base, base, 1)
  {
    MaxIdOfDense(templates);
    UpdatesNameOldRows(templates, cache, vecCount, batch, base, j + 1, base);
    InsertedRowKept(templates, cache, vecCount, batch, base, j);
  }

  lemma InsertedRowKept(templates: seq<TemplateRow>, cache: map<string, CacheEntry>, vecCount: nat, batch: seq<Record>, base: int, j: nat)
    requires |templates| <= j < |templates| + |Novel(batch, cache)|
    requires NextTemplateId(templates) == |templates| + 1 && vecCount == |templates|
    requires Bumps(Updates(batch, cache, base), j + 1) == 0 && LastSeenAfter(Updates(batch, cache, base), j + 1, base) == base
    ensures TemplatesAfter(templates, cache, vecCount, batch, base)[j]
      == TemplateRow(j + 1, Novel(batch, cache)[j - |templates|], j, base, base, 1)
  {
    var rows0 := templates + NewRows(Novel(batch, cache), NextTemplateId(templates), vecCount, base);
    assert rows0[j] == TemplateRow(j + 1, Novel(batch, cache)[j - |templates|], j, base, base, 1);
    ApplyUpdatesSpec(rows0, Updates(batch, cache, base), j);
  }

  /** The occurrence ids of the items at positions `idxs`. */
  function StampsOf(base: int, idxs: seq<nat>): (r: seq<int>)
    ensures |r| == |idxs|
    ensures forall k | 0 <= k < |idxs| :: r[k] == Stamp(base, idxs[k])
  {
    if idxs == [] then [] else StampsOf(base, idxs[..|idxs| - 1]) + [Stamp(base, idxs[|idxs| - 1])]
  }

  /** Every parameter row built for positions `idxs` belongs to the occurrence of one of them. */
  lemma {:induction false} ParamRowsOwners(batch: seq<Record>, base: int, idxs: seq<nat>)
    requires forall k | 0 <= k < |idxs| :: idxs[k] < |batch|
    ensures forall j | 0 <= j < |ParamRows(batch, base, idxs)| ::
      ParamRows(batch, base, idxs)[j].occurrenceId in StampsOf(base, idxs)
  {
    if idxs != [] {
      var m := |idxs| - 1;
      ParamRowsOwners(batch, base, idxs[..m]);
      assert StampsOf(base, idxs) == StampsOf(base, idxs[..m]) + [Stamp(base, idxs[m])];
    }
  }

  /** A committed batch keeps every parameter row attached to an existing occurrence. */
  lemma ParametersStayAttached(t: Tables, cache: map<string, CacheEntry>, nextId: nat, vecCount: nat, batch: seq<Record>, base: int)
    requires ParametersReferToOccurrences(t)
    ensures ParametersReferToOccurrences(Tables(t.templates,
      t.occurrences + BatchOccurrences(batch, cache, nextId, vecCount, base),
      t.parameters + BatchParameters(batch, cache, base)))
  {
    var occ := BatchOccurrences(batch, cache, nextId, vecCount, base);
    var added := BatchParameters(batch, cache, base);
    var nt := Tables(t.templates, t.occurrences + occ, t.parameters + added);
    forall p | p in nt.parameters ensures exists o | o in nt.occurrences :: o.id == p.occurrenceId {
      if p in t.parameters {
        var o :| o in t.occurrences && o.id == p.occurrenceId;
        assert o in nt.occurrences;
      } else {
        NewParameterAttached(batch, cache, nextId, vecCount, base, p);
        var o :| o in occ && o.id == p.occurrenceId;
        assert o in nt.occurrences;
      }
    }
    assert ParametersReferToOccurrences(nt);
  }

  /** Each parameter row of a batch belongs to one of the batch's own occurrence rows. */
  lemma NewParameterAttached(batch: seq<Record>, cache: map<string, CacheEntry>, nextId: nat, vecCount: nat, base: int, p: ParameterRow)
    requires p in BatchParameters(batch, cache, base)
    ensures exists o | o in BatchOccurrences(batch, cache, nextId, vecCount, base) :: o.id == p.occurrenceId
  {
    var occ := BatchOccurrences(batch, cache, nextId, vecCount, base);
    var added := BatchParameters(batch, cache, base);
    var order := Order(batch, cache);
    OrderCoversBatchOnce(batch, cache);
    OccurrenceIdsDistinct(batch, cache, nextId, vecCount, base);
    assert added == ParamRows(batch, base, order);
    ParamRowsOwners(batch, base, order);
    var j :| 0 <= j < |added| && added[j] == p;
    var k :| 0 <= k < |order| && StampsOf(base, order)[k] == p.occurrenceId;
    assert occ[k] in occ;
  }

  /** Preparing one more item adds its occurrence row and its parameter rows at the end. */
  lemma RowsSnoc(batch: seq<Record>, base: int, cache: map<string, CacheEntry>, visited: seq<nat>, x: nat)
    requires Serves(batch, cache, visited)
    requires x < |batch| && batch[x].message in cache
    ensures Serves(batch, cache, visited + [x])
    ensures OccRows(batch, base, cache, visited + [x])
      == OccRows(batch, base, cache, visited) + [OccFor(base, x, batch[x], cache[batch[x].message].templateId)]
    ensures ParamRows(batch, base, visited + [x]) == ParamRows(batch, base, visited) + ParamsFor(Stamp(base, x), ParamsOf(batch[x]))
  {
    assert (visited + [x])[..|visited|] == visited;
  }

  /** One more pair of `batch_map` extends the positions of its text by that pair's position. */
  lemma SelectForSnoc(pairs: seq<(nat, string)>, j: nat, txt: string)
    requires j < |pairs|
    ensures SelectFor(pairs[..j + 1], txt) == SelectFor(pairs[..j], txt) + (if pairs[j].1 == txt then [pairs[j].0] else [])
  {
    assert pairs[..j + 1][..j] == pairs[..j];
  }

  /** One more batch item: the first loop's five lists each grow by what that item contributes. */
  lemma SplitSnoc(batch: seq<Record>, cache: map<string, CacheEntry>, base: int, i: nat)
    requires i < |batch|
    ensures var t := batch[i].message;
      && Hits(batch[..i + 1], cache) == Hits(batch[..i], cache) + (if t in cache then [i] else [])
      && BatchMap(batch[..i + 1], cache) == BatchMap(batch[..i], cache) + (if t in cache then [] else [(i, t)])
      && Novel(batch[..i + 1], cache) == (if t in cache || t in Novel(batch[..i], cache) then Novel(batch[..i], cache) else Novel(batch[..i], cache) + [t])
      && Updates(batch[..i + 1], cache, base) == Updates(batch[..i], cache, base) + (if t in cache then [Update(Stamp(base, i), cache[t].templateId)] else [])
  {
    assert batch[..i + 1][..i] == batch[..i];
  }
}
