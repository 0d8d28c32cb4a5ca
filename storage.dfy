/**
 * `RelationalLogDB` (storage.py): one category store, a SQLite file and a vector file that the
 * writer appends to and every store of the same name reads. The two files are objects of their own
 * so that a reader and the writer can share them.
 */
module Storage {
  import opened Wrappers
  import opened Lists
  import opened Events
  import opened Catalog
  import opened Ingest
  import opened Retrieval

  /** `gen_data/<name>.bin`: whether it exists, and its length in bytes. */
  class VectorFile {
    var present: bool
    var size: nat

    constructor (present: bool, size: nat)
      requires present || size == 0
      ensures this.present == present && this.size == size
    {
      this.present := present;
      this.size := size;
    }
  }

  /** `gen_data/<name>.sqlite`: the committed contents of its three tables. */
  class SqlFile {
    var tables: Tables

    constructor (tables: Tables)
      ensures this.tables == tables
    {
      this.tables := tables;
    }
  }

  /** How `add_batch` ends: committed, rolled back by the primary key, or failed for want of a cache. */
  datatype AddOutcome = Committed | RolledBack | NoCache

  /** `_prepare_occ`: the occurrence row and the parameter rows of one item. */
  method PrepareOcc(tid: nat, item: Record, timestamp: int) returns (o: OccurrenceRow, ps: seq<ParameterRow>)
    ensures o == OccurrenceRow(timestamp, tid, timestamp, PriorityOf(item))
    ensures ps == ParamsFor(timestamp, ParamsOf(item))
  {
    var oid := timestamp;
    o := OccurrenceRow(oid, tid, timestamp, PriorityOf(item));
    var values := ParamsOf(item);
    ps := [];
    for i := 0 to |values|
      invariant |ps| == i
      invariant forall j | 0 <= j < i :: ps[j] == ParameterRow(oid, j, values[j])
    {
      ps := ps + [ParameterRow(oid, i, values[i])];
    }
  }

  /**
   * The inner loop of lines 70-73: prepares, in `batch_map` order, every item whose text is `txt`,
   * so the positions visited grow by `SelectFor(batchMap, txt)`.
   */
  method PrepareMatching(batch: seq<Record>, base: int, batchMap: seq<(nat, string)>, txt: string, tid: nat,
                         occ0: seq<OccurrenceRow>, params0: seq<ParameterRow>,
                         ghost cache: map<string, CacheEntry>, ghost visited0: seq<nat>)
    returns (occ: seq<OccurrenceRow>, params: seq<ParameterRow>, ghost visited: seq<nat>)
    requires forall k | 0 <= k < |batchMap| :: batchMap[k].0 < |batch| && batch[batchMap[k].0].message == batchMap[k].1
    requires txt in cache && cache[txt].templateId == tid
    requires Serves(batch, cache, visited0)
    requires occ0 == OccRows(batch, base, cache, visited0)
    requires params0 == ParamRows(batch, base, visited0)
    ensures visited == visited0 + SelectFor(batchMap, txt)
    ensures Serves(batch, cache, visited)
    ensures occ == OccRows(batch, base, cache, visited)
    ensures params == ParamRows(batch, base, visited)
  {
    occ, params, visited := occ0, params0, visited0;
    for j := 0 to |batchMap|
      invariant visited == visited0 + SelectFor(batchMap[..j], txt)
      invariant Serves(batch, cache, visited)
      invariant occ == OccRows(batch, base, cache, visited)
      invariant params == ParamRows(batch, base, visited)
    {
      SelectForSnoc(batchMap, j, txt);
      var (bi, bTxt) := batchMap[j];
      if bTxt == txt {
        var correctTs := Stamp(base, bi);
        var o, ps := PrepareOcc(tid, batch[bi], correctTs);
        RowsSnoc(batch, base, cache, visited, bi);
        AppendAssoc(visited0, SelectFor(batchMap[..j], txt), [bi]);
        visited := visited + [bi];
        occ := occ + [o];
        params := params + ps;
      } else {
        assert SelectFor(batchMap[..j], txt) + [] == SelectFor(batchMap[..j], txt);
      }
    }
    assert batchMap[..|batchMap|] == batchMap;
  }

  /** The hits' rows are the same whichever cache names their templates, as long as both agree on them. */
  lemma {:induction false} OccRowsAgree(batch: seq<Record>, base: int, c1: map<string, CacheEntry>, c2: map<string, CacheEntry>, idxs: seq<nat>)
    requires Serves(batch, c1, idxs)
    requires forall t | t in c1 :: t in c2 && c2[t] == c1[t]
    ensures Serves(batch, c2, idxs)
    ensures OccRows(batch, base, c1, idxs) == OccRows(batch, base, c2, idxs)
  {
    if idxs != [] {
      var m := |idxs| - 1;
      assert Serves(batch, c1, idxs[..m]) by {
        forall k | 0 <= k < m ensures idxs[..m][k] == idxs[k] {}
      }
      OccRowsAgree(batch, base, c1, c2, idxs[..m]);
    }
  }

  class LogDB {
    const name: string
    /** `mode == 'writer'`: only a writer loads `template_cache`. */
    const isWriter: bool
    const sql: SqlFile
    const vec: VectorFile
    var cache: map<string, CacheEntry>
    var vecCount: nat

    /**
     * What every call relies on: a missing vector file is empty, the writer's cache knows every
     * template text, occurrence ids are unique and every parameter row has its occurrence.
     */
    ghost predicate Valid()
      reads this, sql, vec
    {
      && (!vec.present ==> vec.size == 0)
      && (isWriter ==> CachedTexts(sql.tables.templates, cache))
      && UniqueOccurrenceIds(sql.tables.occurrences)
      && ParametersReferToOccurrences(sql.tables)
    }

    /** `__init__`: a writer loads the cache; both count the whole vectors in the file, if there is one. */
    constructor (name: string, mode: string, sql: SqlFile, vec: VectorFile)
      requires !vec.present ==> vec.size == 0
      ensures this.name == name && isWriter == (mode == "writer") && this.sql == sql && this.vec == vec
      ensures cache == (if isWriter then LoadCache(sql.tables.templates) else map[])
      ensures vecCount == (if vec.present then VectorCount(vec.size) else 0)
      ensures UniqueOccurrenceIds(sql.tables.occurrences) && ParametersReferToOccurrences(sql.tables) ==> Valid()
    {
      this.name := name;
      this.sql := sql;
      this.vec := vec;
      isWriter := mode == "writer";
      if mode == "writer" {
        cache := LoadCache(sql.tables.templates);
        LoadCacheCachesAll(sql.tables.templates);
      } else {
        cache := map[];
      }
      vecCount := 0;
      if vec.present {
        vecCount := VectorCount(vec.size);
      }
    }

    /**
     * `add_batch`: the vector file grows by one vector per new text and the cache and `vec_count`
     * follow it whatever happens next; the tables take the new rows and the UPDATEs only if no new
     * occurrence id is already taken. A reader has no cache, so any non-empty batch fails at once.
     */
    method AddBatch(batch: seq<Record>, base: int) returns (outcome: AddOutcome)
      requires Valid()
      modifies this, sql, vec
      ensures Valid()
      ensures !isWriter && batch != [] ==>
        outcome == NoCache && sql.tables == old(sql.tables) && cache == old(cache) && vecCount == old(vecCount)
        && vec.size == old(vec.size) && vec.present == old(vec.present)
      ensures isWriter || batch == [] ==>
        var r := AddBatchSpec(old(sql.tables), old(cache), old(vecCount), batch, base);
        && outcome == (if r.committed then Committed else RolledBack)
        && sql.tables == r.tables && cache == r.cache && vecCount == r.vecCount
        && vec.size == old(vec.size) + r.appended * VectorBytes
        && vec.present == (old(vec.present) || r.appended > 0)
    {
      if !isWriter && batch != [] {
        return NoCache;
      }
      ghost var t0 := sql.tables;
      ghost var cache0 := cache;
      ghost var vecCount0 := vecCount;
      var r := Commit(sql.tables, cache, vecCount, batch, base);
      if r.appended > 0 {
        vec.present := true;
        vec.size := vec.size + r.appended * VectorBytes;
      }
      cache := r.cache;
      vecCount := r.vecCount;
      if r.committed {
        sql.tables := r.tables;
        outcome := Committed;
      } else {
        outcome := RolledBack;
      }
      if isWriter {
        KeepsValid(t0, cache0, vecCount0, batch, base);
      } else {
        EmptyBatchIsNoop(t0, cache0, vecCount0, base);
      }
    }

    /**
     * `search` (lines 91-159): the vector count is refreshed from the file, then the broad phase,
     * the candidate rows, the re-ranking and the first `k` hits, as `SearchResult` describes.
     */
    method Search(k: int, recencyBias: bool, coarse: nat -> real, fine: string -> real) returns (out: seq<Line>)
      modifies this
      ensures vecCount == (if vec.present then VectorCount(vec.size) else old(vecCount))
      ensures cache == old(cache)
      ensures out == SearchResult(sql.tables, vecCount, k, recencyBias, coarse, fine)
    {
      if vec.present {
        vecCount := VectorCount(vec.size);
      }
      if vecCount == 0 {
        return [Notice(NoLogs)];
      }
      out := Answer(sql.tables, vecCount, k, recencyBias, coarse, fine);
    }
  }

  /**
   * The first loop of `add_batch` (lines 47-58): cache hits get their UPDATE and their rows at once;
   * the other items go to `batch_map`, and their texts, once each, to `unique_texts`.
   */
  method SplitBatch(batch: seq<Record>, base: int, cache: map<string, CacheEntry>)
    returns (updates: seq<Update>, occ: seq<OccurrenceRow>, params: seq<ParameterRow>,
             unique: seq<string>, batchMap: seq<(nat, string)>)
    ensures updates == Updates(batch, cache, base)
    ensures unique == Novel(batch, cache)
    ensures batchMap == BatchMap(batch, cache)
    ensures occ == OccRows(batch, base, cache, Hits(batch, cache))
    ensures params == ParamRows(batch, base, Hits(batch, cache))
  {
    updates, occ, params, unique, batchMap := [], [], [], [], [];
    ghost var hits: seq<nat> := [];
    for i := 0 to |batch|
      invariant Split(updates, occ, params, unique, batchMap, hits) == SplitUpTo(batch, base, cache, i)
    {
      var item := batch[i];
      var itemTs := Stamp(base, i);
      var text := item.message;
      if text in cache {
        var tid := cache[text].templateId;
        var o, ps := PrepareOcc(tid, item, itemTs);
        updates := updates + [Update(itemTs, tid)];
        hits := hits + [i];
        occ := occ + [o];
        params := params + ps;
      } else {
        if text !in unique {
          unique := unique + [text];
        }
        var entry: (nat, string) := (i, text);
        batchMap := batchMap + [entry];
      }
    }
    SplitUpToSpec(batch, base, cache, |batch|);
    FirstLoopDone(batch, base, cache, updates, occ, params, unique, batchMap, hits);
  }

  /** The lists the first loop builds, with the positions of the hits. */
  datatype Split = Split(updates: seq<Update>, occ: seq<OccurrenceRow>, params: seq<ParameterRow>,
                         unique: seq<string>, batchMap: seq<(nat, string)>, hits: seq<nat>)

  /** The first loop after its first `i` items, one item at a time. */
  ghost function SplitUpTo(batch: seq<Record>, base: int, cache: map<string, CacheEntry>, i: nat): Split
    requires i <= |batch|
    decreases i
  {
    if i == 0 then Split([], [], [], [], [], [])
    else
      var s := SplitUpTo(batch, base, cache, i - 1);
      var item := batch[i - 1];
      var text := item.message;
      var ts := Stamp(base, i - 1);
      if text in cache then
        var tid := cache[text].templateId;
        s.(updates := s.updates + [Update(ts, tid)], occ := s.occ + [OccurrenceRow(ts, tid, ts, PriorityOf(item))],
           params := s.params + ParamsFor(ts, ParamsOf(item)), hits := s.hits + [i - 1])
      else
        s.(unique := if text in s.unique then s.unique else s.unique + [text], batchMap := s.batchMap + [(i - 1, text)])
  }

  /** The item-by-item lists are the ones `Updates`, `Novel`, `BatchMap` and `Hits` describe for the prefix. */
  lemma {:induction false} SplitUpToSpec(batch: seq<Record>, base: int, cache: map<string, CacheEntry>, i: nat)
    requires i <= |batch|
    ensures SplitAgrees(batch, base, cache, i)
    decreases i
  {
    if i == 0 {
      SplitStart(batch, base, cache);
    } else {
      SplitUpToSpec(batch, base, cache, i - 1);
      if batch[i - 1].message in cache {
        SplitHitStep(batch, base, cache, i);
      } else {
        SplitMissStep(batch, base, cache, i);
      }
    }
  }

  ghost predicate SplitAgrees(batch: seq<Record>, base: int, cache: map<string, CacheEntry>, i: nat)
    requires i <= |batch|
  {
    var s := SplitUpTo(batch, base, cache, i);
    FirstLoop(batch, base, cache, i, s.updates, s.occ, s.params, s.unique, s.batchMap, s.hits)
  }

  lemma SplitStart(batch: seq<Record>, base: int, cache: map<string, CacheEntry>)
    ensures SplitAgrees(batch, base, cache, 0)
  {
    assert batch[..0] == [];
  }

  lemma SplitHitStep(batch: seq<Record>, base: int, cache: map<string, CacheEntry>, n: nat)
    requires 0 < n <= |batch| && batch[n - 1].message in cache && SplitAgrees(batch, base, cache, n - 1)
    ensures SplitAgrees(batch, base, cache, n)
  {
    var i := n - 1;
    var s := SplitUpTo(batch, base, cache, i);
    var item := batch[i];
    var tid := cache[item.message].templateId;
    var ts := Stamp(base, i);
    var u, o, ps := Update(ts, tid), OccurrenceRow(ts, tid, ts, PriorityOf(item)), ParamsFor(ts, ParamsOf(item));
    assert SplitUpTo(batch, base, cache, n) == s.(updates := s.updates + [u], occ := s.occ + [o], params := s.params + ps, hits := s.hits + [i]);
    HitStep(batch, base, cache, i, s.updates, s.occ, s.params, s.unique, s.batchMap, s.hits, u, o, ps);
  }

  lemma SplitMissStep(batch: seq<Record>, base: int, cache: map<string, CacheEntry>, n: nat)
    requires 0 < n <= |batch| && batch[n - 1].message !in cache && SplitAgrees(batch, base, cache, n - 1)
    ensures SplitAgrees(batch, base, cache, n)
  {
    var i := n - 1;
    var s := SplitUpTo(batch, base, cache, i);
    var t := batch[i].message;
    assert SplitUpTo(batch, base, cache, n)
      == s.(unique := if t in s.unique then s.unique else s.unique + [t], batchMap := s.batchMap + [(i, t)]);
    MissStep(batch, base, cache, i, s.updates, s.occ, s.params, s.unique, s.batchMap, s.hits);
  }

  lemma FirstLoopDone(batch: seq<Record>, base: int, cache: map<string, CacheEntry>,
                      updates: seq<Update>, occ: seq<OccurrenceRow>, params: seq<ParameterRow>,
                      unique: seq<string>, batchMap: seq<(nat, string)>, hits: seq<nat>)
    requires FirstLoop(batch, base, cache, |batch|, updates, occ, params, unique, batchMap, hits)
    ensures updates == Updates(batch, cache, base)
    ensures unique == Novel(batch, cache)
    ensures batchMap == BatchMap(batch, cache)
    ensures occ == OccRows(batch, base, cache, Hits(batch, cache))
    ensures params == ParamRows(batch, base, Hits(batch, cache))
  {
    assert batch[..|batch|] == batch;
  }

  /** What the first loop has built after `i` items. */
  ghost predicate FirstLoop(batch: seq<Record>, base: int, cache: map<string, CacheEntry>, i: nat,
                            updates: seq<Update>, occ: seq<OccurrenceRow>, params: seq<ParameterRow>,
                            unique: seq<string>, batchMap: seq<(nat, string)>, hits: seq<nat>)
  {
    && i <= |batch|
    && updates == Updates(batch[..i], cache, base)
    && unique == Novel(batch[..i], cache)
    && batchMap == BatchMap(batch[..i], cache)
    && hits == Hits(batch[..i], cache)
    && Serves(batch, cache, hits)
    && occ == OccRows(batch, base, cache, hits)
    && params == ParamRows(batch, base, hits)
  }

  /** A cache hit: its UPDATE and its rows are added at once. */
  lemma HitStep(batch: seq<Record>, base: int, cache: map<string, CacheEntry>, i: nat,
                updates: seq<Update>, occ: seq<OccurrenceRow>, params: seq<ParameterRow>,
                unique: seq<string>, batchMap: seq<(nat, string)>, hits: seq<nat>,
                u: Update, o: OccurrenceRow, ps: seq<ParameterRow>)
    requires FirstLoop(batch, base, cache, i, updates, occ, params, unique, batchMap, hits)
    requires i < |batch| && batch[i].message in cache
    requires u == Update(Stamp(base, i), cache[batch[i].message].templateId)
    requires o == OccurrenceRow(Stamp(base, i), cache[batch[i].message].templateId, Stamp(base, i), PriorityOf(batch[i]))
    requires ps == ParamsFor(Stamp(base, i), ParamsOf(batch[i]))
    ensures FirstLoop(batch, base, cache, i + 1, updates + [u], occ + [o], params + ps, unique, batchMap, hits + [i])
  {
    SplitSnoc(batch, cache, base, i);
    RowsSnoc(batch, base, cache, hits, i);
  }

  /** A miss: the item joins `batch_map`, and its text `unique_texts` unless it is there already. */
  lemma MissStep(batch: seq<Record>, base: int, cache: map<string, CacheEntry>, i: nat,
                 updates: seq<Update>, occ: seq<OccurrenceRow>, params: seq<ParameterRow>,
                 unique: seq<string>, batchMap: seq<(nat, string)>, hits: seq<nat>)
    requires FirstLoop(batch, base, cache, i, updates, occ, params, unique, batchMap, hits)
    requires i < |batch| && batch[i].message !in cache
    ensures var t := batch[i].message;
      FirstLoop(batch, base, cache, i + 1, updates, occ, params,
                if t in unique then unique else unique + [t], batchMap + [(i, t)], hits)
  {
    SplitSnoc(batch, cache, base, i);
  }

  /**
   * The body of `add_batch` (lines 43-79) on values: the two loops, the vector count and the cache
   * as they stand after the vector file append, and the transaction's verdict and tables.
   */
  method Commit(t: Tables, cache: map<string, CacheEntry>, vecCount: nat, batch: seq<Record>, base: int) returns (r: BatchResult)
    ensures r == AddBatchSpec(t, cache, vecCount, batch, base)
  {
    AddBatchSpecParts(t, cache, vecCount, batch, base);
    var updates, occHits, paramsHits, unique, batchMap := SplitBatch(batch, base, cache);
    var nextId := NextTemplateId(t.templates);
    SecondLoopReady(batch, base, cache, nextId, vecCount, unique, batchMap, occHits, paramsHits);
    var pending, newCache, occ, params :=
      InsertNovel(batch, base, t.templates, cache, vecCount, unique, batchMap, occHits, paramsHits,
                  Hits(batch, cache), FinalCache(cache, unique, nextId, vecCount));
    SecondLoopDone(batch, base, cache, nextId, vecCount, occ, params);
    if NoClash(t.occurrences, occ) {
      r := BatchResult(Tables(ApplyUpdates(pending, updates), t.occurrences + occ, t.parameters + params),
                       newCache, vecCount + |unique|, |unique|, true);
    } else {
      r := BatchResult(t, newCache, vecCount + |unique|, |unique|, false);
    }
  }

  /**
   * The second loop of `add_batch` (lines 64-73): each new text is INSERTed with the next rowid and
   * the next vector index, cached, and its items prepared. `visited0` are the positions prepared by
   * the first loop; `fc` names the cache as it is once the loop is over, which agrees with the
   * cache at every step on the texts prepared so far.
   */
  method InsertNovel(batch: seq<Record>, base: int, templates0: seq<TemplateRow>, cache: map<string, CacheEntry>, startIdx: nat,
                     unique: seq<string>, batchMap: seq<(nat, string)>, occ0: seq<OccurrenceRow>, params0: seq<ParameterRow>,
                     ghost visited0: seq<nat>, ghost fc: map<string, CacheEntry>)
    returns (pending: seq<TemplateRow>, newCache: map<string, CacheEntry>, occ: seq<OccurrenceRow>, params: seq<ParameterRow>)
    requires Distinct(unique)
    requires forall k | 0 <= k < |batchMap| :: batchMap[k].0 < |batch| && batch[batchMap[k].0].message == batchMap[k].1
    requires forall k | 0 <= k < |unique| :: unique[k] in fc && fc[unique[k]].templateId == NextTemplateId(templates0) + k
    requires Serves(batch, fc, visited0) && occ0 == OccRows(batch, base, fc, visited0) && params0 == ParamRows(batch, base, visited0)
    ensures pending == templates0 + NewRows(unique, NextTemplateId(templates0), startIdx, base)
    ensures newCache == FinalCache(cache, unique, NextTemplateId(templates0), startIdx)
    ensures var visited := visited0 + MissOrder(batchMap, unique);
      Serves(batch, fc, visited) && occ == OccRows(batch, base, fc, visited) && params == ParamRows(batch, base, visited)
  {
    var nextId := NextTemplateId(templates0);
    ghost var visited := visited0;
    pending, newCache, occ, params := templates0, cache, occ0, params0;
    SecondLoopStart(batch, base, templates0, cache, startIdx, unique, batchMap, visited0, fc, occ0, params0);
    for idx := 0 to |unique|
      invariant SecondLoop(batch, base, templates0, cache, startIdx, unique, batchMap, visited0, fc,
                           idx, pending, newCache, occ, params, visited)
    {
      var txt := unique[idx];
      var vIdx := startIdx + idx;
      var tid := nextId + idx;  // `cur.lastrowid`, as InsertedRowIds shows
      SecondLoopServes(batch, base, templates0, cache, startIdx, unique, batchMap, visited0, fc,
                       idx, pending, newCache, occ, params, visited);
      var occ', params', visited' := PrepareMatching(batch, base, batchMap, txt, tid, occ, params, fc, visited);
      SecondLoopStep(batch, base, templates0, cache, startIdx, unique, batchMap, visited0, fc,
                     idx, pending, newCache, occ, params, visited, occ', params', visited');
      pending := pending + [TemplateRow(tid, txt, vIdx, base, base, 1)];
      newCache := newCache[txt := CacheEntry(tid, vIdx)];
      occ, params, visited := occ', params', visited';
    }
    SecondLoopEnd(batch, base, templates0, cache, startIdx, unique, batchMap, visited0, fc, pending, newCache, occ, params, visited);
  }

  /** What the second loop has built after its first `idx` new texts. */
  ghost predicate SecondLoop(batch: seq<Record>, base: int, templates0: seq<TemplateRow>, cache: map<string, CacheEntry>,
                             startIdx: nat, unique: seq<string>, batchMap: seq<(nat, string)>, visited0: seq<nat>,
                             fc: map<string, CacheEntry>, idx: nat,
                             pending: seq<TemplateRow>, newCache: map<string, CacheEntry>,
                             occ: seq<OccurrenceRow>, params: seq<ParameterRow>, visited: seq<nat>)
  {
    && idx <= |unique|
    && newCache == FinalCache(cache, unique[..idx], NextTemplateId(templates0), startIdx)
    && pending == templates0 + NewRows(unique[..idx], NextTemplateId(templates0), startIdx, base)
    && visited == visited0 + MissOrder(batchMap, unique[..idx])
    && Serves(batch, fc, visited)
    && occ == OccRows(batch, base, fc, visited)
    && params == ParamRows(batch, base, visited)
  }

  lemma SecondLoopStart(batch: seq<Record>, base: int, templates0: seq<TemplateRow>, cache: map<string, CacheEntry>,
                        startIdx: nat, unique: seq<string>, batchMap: seq<(nat, string)>, visited0: seq<nat>,
                        fc: map<string, CacheEntry>, occ0: seq<OccurrenceRow>, params0: seq<ParameterRow>)
    requires Serves(batch, fc, visited0) && occ0 == OccRows(batch, base, fc, visited0) && params0 == ParamRows(batch, base, visited0)
    ensures SecondLoop(batch, base, templates0, cache, startIdx, unique, batchMap, visited0, fc,
                       0, templates0, cache, occ0, params0, visited0)
  {
    assert unique[..0] == [];
    assert visited0 + [] == visited0;
    assert templates0 + [] == templates0;
  }

  lemma SecondLoopServes(batch: seq<Record>, base: int, templates0: seq<TemplateRow>, cache: map<string, CacheEntry>,
                         startIdx: nat, unique: seq<string>, batchMap: seq<(nat, string)>, visited0: seq<nat>,
                         fc: map<string, CacheEntry>, idx: nat,
                         pending: seq<TemplateRow>, newCache: map<string, CacheEntry>,
                         occ: seq<OccurrenceRow>, params: seq<ParameterRow>, visited: seq<nat>)
    requires SecondLoop(batch, base, templates0, cache, startIdx, unique, batchMap, visited0, fc,
                        idx, pending, newCache, occ, params, visited)
    ensures Serves(batch, fc, visited) && occ == OccRows(batch, base, fc, visited) && params == ParamRows(batch, base, visited)
  {
  }

  /** One new text: its INSERT staged, its cache entry set and its items prepared. */
  lemma SecondLoopStep(batch: seq<Record>, base: int, templates0: seq<TemplateRow>, cache: map<string, CacheEntry>,
                       startIdx: nat, unique: seq<string>, batchMap: seq<(nat, string)>, visited0: seq<nat>,
                       fc: map<string, CacheEntry>, idx: nat,
                       pending: seq<TemplateRow>, newCache: map<string, CacheEntry>,
                       occ: seq<OccurrenceRow>, params: seq<ParameterRow>, visited: seq<nat>,
                       occ': seq<OccurrenceRow>, params': seq<ParameterRow>, visited': seq<nat>)
    requires idx < |unique|
    requires SecondLoop(batch, base, templates0, cache, startIdx, unique, batchMap, visited0, fc,
                        idx, pending, newCache, occ, params, visited)
    requires visited' == visited + SelectFor(batchMap, unique[idx])
    requires Serves(batch, fc, visited') && occ' == OccRows(batch, base, fc, visited') && params' == ParamRows(batch, base, visited')
    ensures var nextId := NextTemplateId(templates0);
      SecondLoop(batch, base, templates0, cache, startIdx, unique, batchMap, visited0, fc, idx + 1,
                 pending + [TemplateRow(nextId + idx, unique[idx], startIdx + idx, base, base, 1)],
                 newCache[unique[idx] := CacheEntry(nextId + idx, startIdx + idx)], occ', params', visited')
  {
    InsertStep(templates0, cache, startIdx, unique, batchMap, idx, pending, newCache, base);
    AppendAssoc(visited0, MissOrder(batchMap, unique[..idx]), SelectFor(batchMap, unique[idx]));
  }

  lemma SecondLoopEnd(batch: seq<Record>, base: int, templates0: seq<TemplateRow>, cache: map<string, CacheEntry>,
                      startIdx: nat, unique: seq<string>, batchMap: seq<(nat, string)>, visited0: seq<nat>,
                      fc: map<string, CacheEntry>,
                      pending: seq<TemplateRow>, newCache: map<string, CacheEntry>,
                      occ: seq<OccurrenceRow>, params: seq<ParameterRow>, visited: seq<nat>)
    requires SecondLoop(batch, base, templates0, cache, startIdx, unique, batchMap, visited0, fc,
                        |unique|, pending, newCache, occ, params, visited)
    ensures pending == templates0 + NewRows(unique, NextTemplateId(templates0), startIdx, base)
    ensures newCache == FinalCache(cache, unique, NextTemplateId(templates0), startIdx)
    ensures var visited := visited0 + MissOrder(batchMap, unique);
      Serves(batch, fc, visited) && occ == OccRows(batch, base, fc, visited) && params == ParamRows(batch, base, visited)
  {
    assert unique[..|unique|] == unique;
  }

  /** The candidate loop of `search`: rows for the top indices, hydrated with their latest parameters. */
  method GatherCandidates(t: Tables, top: seq<nat>, coarse: nat -> real) returns (cands: seq<Candidate>)
    ensures cands == Candidates(t, top, coarse)
  {
    cands := [];
    for a := 0 to |top|
      invariant cands == Candidates(t, top[..a], coarse)
    {
      assert top[..a + 1][..a] == top[..a] && top[..a + 1][a] == top[a];
      var idx := top[a];
      var row := TemplateWithVector(t.templates, idx);
      if row.Some? {
        var occRow := Latest(t.occurrences, row.value.id);
        var fullText := row.value.text;
        var ts := row.value.lastSeen;
        var params: seq<string> := [];
        if occRow.Some? {
          ts := occRow.value.timestamp;
          params := ParamValues(t.parameters, occRow.value.id);
          fullText := Hydrate(fullText, params);
        }
        var display := HighlightParams(row.value.text, params);
        cands := cands + [Candidate(coarse(idx), ts, fullText, display)];
      }
    }
    assert top[..|top|] == top;
  }

  /** The scoring loop of `search`: each candidate paired with its live score. */
  method ScoreCandidates(cands: seq<Candidate>, fine: string -> real) returns (scored: seq<Scored>)
    ensures scored == ScoreAll(cands, fine)
  {
    scored := [];
    for i := 0 to |cands|
      invariant |scored| == i
      invariant forall j | 0 <= j < i :: scored[j] == Scored(cands[j], fine(cands[j].fullText))
    {
      scored := scored + [Scored(cands[i], fine(cands[i].fullText))];
    }
  }

  /** The output loop of `search`: one line per shown result. */
  method RenderHits(shown: seq<Scored>) returns (out: seq<Line>)
    ensures out == HitsOf(shown)
  {
    out := [];
    for i := 0 to |shown|
      invariant |out| == i
      invariant forall j | 0 <= j < i :: out[j] == HitOf(shown[j])
    {
      out := out + [Hit(shown[i].finalScore, shown[i].candidate.ts, shown[i].candidate.display)];
    }
  }

  /** `search` over a store holding `vecCount` vectors: gather, score, rank, cut to `k` and render. */
  method Answer(t: Tables, vecCount: nat, k: int, recencyBias: bool, coarse: nat -> real, fine: string -> real) returns (out: seq<Line>)
    requires vecCount > 0
    ensures out == SearchResult(t, vecCount, k, recencyBias, coarse, fine)
  {
    var top := TopIndices(vecCount, coarse);
    var cands := GatherCandidates(t, top, coarse);
    var scored := ScoreCandidates(cands, fine);
    var shown := Prefix(Rank(scored, recencyBias), k);
    out := RenderHits(shown);
  }

  /** `_load_cache` caches every row's text. */
  lemma {:induction false} LoadCacheCachesAll(rows: seq<TemplateRow>)
    ensures CachedTexts(rows, LoadCache(rows))
  {
    if rows != [] {
      var n := |rows| - 1;
      LoadCacheCachesAll(rows[..n]);
      assert forall i | 0 <= i < n :: rows[..n][i] == rows[i];
    }
  }

  /** The INSERT's `lastrowid` is one past the largest id, so the next one is one further. */
  lemma NextIdAfterInsert(rows: seq<TemplateRow>, row: TemplateRow)
    requires row.id == NextTemplateId(rows)
    ensures NextTemplateId(rows + [row]) == NextTemplateId(rows) + 1
  {
    assert (rows + [row])[..|rows|] == rows;
  }

  /** One pass of the second loop, on the staged rows and the cache: the facts its invariants need. */
  lemma InsertStep(templates0: seq<TemplateRow>, cache: map<string, CacheEntry>, startIdx: nat,
                   unique: seq<string>, batchMap: seq<(nat, string)>, idx: nat,
                   pending: seq<TemplateRow>, newCache: map<string, CacheEntry>, base: int)
    requires idx < |unique|
    requires pending == templates0 + NewRows(unique[..idx], NextTemplateId(templates0), startIdx, base)
    requires newCache == FinalCache(cache, unique[..idx], NextTemplateId(templates0), startIdx)
    ensures var nextId := NextTemplateId(templates0);
      var row := TemplateRow(nextId + idx, unique[idx], startIdx + idx, base, base, 1);
      && pending + [row] == templates0 + NewRows(unique[..idx + 1], nextId, startIdx, base)
      && newCache[unique[idx] := CacheEntry(nextId + idx, startIdx + idx)] == FinalCache(cache, unique[..idx + 1], nextId, startIdx)
      && MissOrder(batchMap, unique[..idx + 1]) == MissOrder(batchMap, unique[..idx]) + SelectFor(batchMap, unique[idx])
  {
    var nextId := NextTemplateId(templates0);
    var row := TemplateRow(nextId + idx, unique[idx], startIdx + idx, base, base, 1);
    NovelStep(cache, unique, idx, nextId, startIdx, batchMap);
    PendingSnoc(templates0, unique, idx, nextId, startIdx, base, pending, row);
  }

  /** What the first loop hands to the second: the facts `InsertNovel` demands, with the hits as the positions visited. */
  lemma SecondLoopReady(batch: seq<Record>, base: int, cache: map<string, CacheEntry>, nextId: nat, vecCount: nat,
                        unique: seq<string>, batchMap: seq<(nat, string)>, occ0: seq<OccurrenceRow>, params0: seq<ParameterRow>)
    requires unique == Novel(batch, cache) && batchMap == BatchMap(batch, cache)
    requires occ0 == OccRows(batch, base, cache, Hits(batch, cache))
    requires params0 == ParamRows(batch, base, Hits(batch, cache))
    ensures Distinct(unique)
    ensures forall k | 0 <= k < |batchMap| :: batchMap[k].0 < |batch| && batch[batchMap[k].0].message == batchMap[k].1
    ensures var fc := FinalCache(cache, unique, nextId, vecCount);
      forall k | 0 <= k < |unique| :: unique[k] in fc && fc[unique[k]].templateId == nextId + k
    ensures var fc := FinalCache(cache, unique, nextId, vecCount);
      var hits := Hits(batch, cache);
      Serves(batch, fc, hits) && occ0 == OccRows(batch, base, fc, hits) && params0 == ParamRows(batch, base, hits)
  {
    NovelDistinct(batch, cache);
    forall k | 0 <= k < |unique| {
      FinalHasNew(cache, unique, nextId, vecCount, k);
    }
    HitsUnderFinalCache(batch, base, cache, nextId, vecCount);
  }

  /** The rows of the hits followed by the rows of the second loop are the rows of the whole call. */
  lemma SecondLoopDone(batch: seq<Record>, base: int, cache: map<string, CacheEntry>, nextId: nat, vecCount: nat,
                       occ: seq<OccurrenceRow>, params: seq<ParameterRow>)
    requires var fc := FinalCache(cache, Novel(batch, cache), nextId, vecCount);
      var visited := Hits(batch, cache) + MissOrder(BatchMap(batch, cache), Novel(batch, cache));
      Serves(batch, fc, visited) && occ == OccRows(batch, base, fc, visited) && params == ParamRows(batch, base, visited)
    ensures occ == BatchOccurrences(batch, cache, nextId, vecCount, base)
    ensures params == BatchParameters(batch, cache, base)
  {
  }

  /**
   * The `k`-th INSERT of a call gets rowid `next id + k`: SQLite gives each new row one more than
   * the largest rowid, and the rows staged before it end with `next id + k - 1`.
   */
  lemma {:induction false} InsertedRowIds(templates: seq<TemplateRow>, novel: seq<string>, k: nat, vecCount: nat, base: int)
    requires k <= |novel|
    ensures NextTemplateId(templates + NewRows(novel[..k], NextTemplateId(templates), vecCount, base)) == NextTemplateId(templates) + k
  {
    if k > 0 {
      var nextId := NextTemplateId(templates);
      InsertedRowIds(templates, novel, k - 1, vecCount, base);
      var pending := templates + NewRows(novel[..k - 1], nextId, vecCount, base);
      var row := TemplateRow(nextId + (k - 1), novel[k - 1], vecCount + (k - 1), base, base, 1);
      PendingSnoc(templates, novel, k - 1, nextId, vecCount, base, pending, row);
      NextIdAfterInsert(pending, row);
    } else {
      assert novel[..0] == [];
      assert NewRows([], NextTemplateId(templates), vecCount, base) == [];
      assert templates + [] == templates;
    }
  }

  /** The rows staged so far, plus the next INSERT, are the rows staged one step later. */
  lemma PendingSnoc(templates: seq<TemplateRow>, novel: seq<string>, idx: nat, nextId: nat, vecCount: nat, base: int,
                    pending: seq<TemplateRow>, row: TemplateRow)
    requires idx < |novel| && pending == templates + NewRows(novel[..idx], nextId, vecCount, base)
    requires row == TemplateRow(nextId + idx, novel[idx], vecCount + idx, base, base, 1)
    ensures pending + [row] == templates + NewRows(novel[..idx + 1], nextId, vecCount, base)
  {
    assert NewRows(novel[..idx + 1], nextId, vecCount, base) == NewRows(novel[..idx], nextId, vecCount, base) + [row];
  }

  /** One more new text: the cache gains its entry and the visited positions gain its items. */
  lemma NovelStep(cache: map<string, CacheEntry>, novel: seq<string>, idx: nat, nextId: nat, vecCount: nat, pairs: seq<(nat, string)>)
    requires idx < |novel|
    ensures FinalCache(cache, novel[..idx + 1], nextId, vecCount)
      == FinalCache(cache, novel[..idx], nextId, vecCount)[novel[idx] := CacheEntry(nextId + idx, vecCount + idx)]
    ensures MissOrder(pairs, novel[..idx + 1]) == MissOrder(pairs, novel[..idx]) + SelectFor(pairs, novel[idx])
  {
    assert novel[..idx + 1][..idx] == novel[..idx];
  }

  /** The hits' rows come out the same under the cache as it is after the second loop. */
  lemma HitsUnderFinalCache(batch: seq<Record>, base: int, cache: map<string, CacheEntry>, nextId: nat, vecCount: nat)
    ensures var fc := FinalCache(cache, Novel(batch, cache), nextId, vecCount);
      && Serves(batch, fc, Hits(batch, cache))
      && OccRows(batch, base, cache, Hits(batch, cache)) == OccRows(batch, base, fc, Hits(batch, cache))
  {
    CacheAfterBatch(batch, cache, nextId, vecCount);
    OccRowsAgree(batch, base, cache, FinalCache(cache, Novel(batch, cache), nextId, vecCount), Hits(batch, cache));
  }

  /** `AddBatchSpec` taken apart: its outcome, cache, count and tables in terms of the pieces `AddBatch` builds. */
  lemma AddBatchSpecParts(t: Tables, cache: map<string, CacheEntry>, vecCount: nat, batch: seq<Record>, base: int)
    ensures var r := AddBatchSpec(t, cache, vecCount, batch, base);
      var novel := Novel(batch, cache);
      var nextId := NextTemplateId(t.templates);
      var occ := BatchOccurrences(batch, cache, nextId, vecCount, base);
      && r.committed == NoClash(t.occurrences, occ)
      && r.cache == FinalCache(cache, novel, nextId, vecCount)
      && r.vecCount == vecCount + |novel| && r.appended == |novel|
      && r.tables == if r.committed then
           Tables(ApplyUpdates(t.templates + NewRows(novel, nextId, vecCount, base), Updates(batch, cache, base)),
                  t.occurrences + occ, t.parameters + BatchParameters(batch, cache, base))
         else t
  {
  }

  /** `add_batch` keeps `Valid`, committed or not. */
  lemma KeepsValid(t: Tables, cache: map<string, CacheEntry>, vecCount: nat, batch: seq<Record>, base: int)
    requires CachedTexts(t.templates, cache) && UniqueOccurrenceIds(t.occurrences) && ParametersReferToOccurrences(t)
    ensures var r := AddBatchSpec(t, cache, vecCount, batch, base);
      CachedTexts(r.tables.templates, r.cache) && UniqueOccurrenceIds(r.tables.occurrences) && ParametersReferToOccurrences(r.tables)
  {
    CachedTextsKept(t.templates, cache, vecCount, batch, base);
    PrimaryKeyKept(t, cache, vecCount, batch, base);
    ParametersStayAttached(t, cache, NextTemplateId(t.templates), vecCount, batch, base);
  }
}
