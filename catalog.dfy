/**
 * The on-disk state of one category store (storage.py): the three SQLite tables, as in-memory
 * sequences in rowid order, and the vector file, as its length in bytes.
 */
module Catalog {
  import opened Wrappers
  import opened Lists

  /** `EMBED_DIM`: each vector is 384 float32 values. */
  const EmbedDim: nat := 384
  /** Bytes one vector occupies in the `.bin` file. */
  const VectorBytes: nat := 1536

  /** A row of `templates`; `count` starts at 1 (the column default). */
  datatype TemplateRow = TemplateRow(id: nat, text: string, vectorIdx: nat, firstSeen: int, lastSeen: int, count: nat)
  /** A row of `occurrences`; `id` is the explicit INTEGER PRIMARY KEY derived from the timestamp. */
  datatype OccurrenceRow = OccurrenceRow(id: int, templateId: nat, timestamp: int, priority: int)
  /** A row of `parameters` (its own autoincrement id carries no information and is left out). */
  datatype ParameterRow = ParameterRow(occurrenceId: int, position: nat, value: string)

  datatype Tables = Tables(templates: seq<TemplateRow>, occurrences: seq<OccurrenceRow>, parameters: seq<ParameterRow>)

  /** A `template_cache` value: `(template id, vector index)`. */
  datatype CacheEntry = CacheEntry(templateId: nat, vectorIdx: nat)

  /** One `UPDATE templates SET last_seen=?, count=count+1 WHERE id=?`. */
  datatype Update = Update(lastSeen: int, templateId: nat)

  /** `os.path.getsize(vec_file) // (dim * 4)`: a trailing partial vector is not counted. */
  function VectorCount(size: nat): (n: nat)
    ensures n * VectorBytes <= size < (n + 1) * VectorBytes
  {
    size / VectorBytes
  }

  /** Appending `n` whole vectors to the file raises the recovered count by exactly `n`. */
  lemma {:induction false} VectorCountAfterAppend(size: nat, n: nat)
    ensures VectorCount(size + n * VectorBytes) == VectorCount(size) + n
  {
    if n > 0 {
      VectorCountAfterAppend(size, n - 1);
      assert size + n * VectorBytes == (size + (n - 1) * VectorBytes) + VectorBytes;
    }
  }

  function MaxId(rows: seq<TemplateRow>): (m: nat)
    ensures forall i | 0 <= i < |rows| :: rows[i].id <= m
  {
    if rows == [] then 0 else Max(MaxId(rows[..|rows| - 1]), rows[|rows| - 1].id)
  }

  /** `cur.lastrowid` of an INSERT into `templates`: one past the largest rowid in the table. */
  function NextTemplateId(rows: seq<TemplateRow>): (id: nat)
    ensures forall i | 0 <= i < |rows| :: rows[i].id < id
  {
    MaxId(rows) + 1
  }

  /** `_load_cache`: text to `(id, vector_idx)`, later rows overriding earlier ones. */
  function LoadCache(rows: seq<TemplateRow>): map<string, CacheEntry> {
    if rows == [] then map[]
    else
      var last := rows[|rows| - 1];
      LoadCache(rows[..|rows| - 1])[last.text := CacheEntry(last.id, last.vectorIdx)]
  }

  /** The rows a writer that starts from empty files produces: rowid `i + 1`, vector `i`, distinct texts. */
  ghost predicate Dense(templates: seq<TemplateRow>) {
    && (forall i | 0 <= i < |templates| :: templates[i].id == i + 1 && templates[i].vectorIdx == i)
    && (forall i, j | 0 <= i < j < |templates| :: templates[i].text != templates[j].text)
  }

  /**
   * The writer's view agrees with the tables and the file: every template row is cached under its
   * text with its own id and vector index, every cache entry names a row with that text, and the
   * vector count is the number of rows.
   */
  ghost predicate Synced(templates: seq<TemplateRow>, cache: map<string, CacheEntry>, vecCount: nat) {
    && Dense(templates)
    && (forall i | 0 <= i < |templates| ::
          templates[i].text in cache && cache[templates[i].text] == CacheEntry(i + 1, i))
    && (forall t | t in cache :: cache[t].vectorIdx < |templates| && templates[cache[t].vectorIdx].text == t)
    && vecCount == |templates|
  }

  lemma {:induction false} MaxIdOfDense(templates: seq<TemplateRow>)
    requires Dense(templates)
    ensures MaxId(templates) == |templates|
  {
    if templates != [] {
      var init := templates[..|templates| - 1];
      assert Dense(init);
      MaxIdOfDense(init);
    }
  }

  /** A writer opened on dense tables and a matching vector file starts in sync. */
  lemma {:induction false} LoadCacheSynced(templates: seq<TemplateRow>)
    requires Dense(templates)
    ensures Synced(templates, LoadCache(templates), |templates|)
  {
    if templates != [] {
      var n := |templates| - 1;
      var init := templates[..n];
      assert Dense(init);
      LoadCacheSynced(init);
      var cache := LoadCache(templates);
      forall i | 0 <= i < |templates|
        ensures templates[i].text in cache && cache[templates[i].text] == CacheEntry(i + 1, i)
      {
        if i < n {
          assert init[i] == templates[i];
          assert templates[i].text != templates[n].text;
        }
      }
      forall t | t in cache
        ensures cache[t].vectorIdx < |templates| && templates[cache[t].vectorIdx].text == t
      {
        if t != templates[n].text {
          assert init[cache[t].vectorIdx] == templates[cache[t].vectorIdx];
        }
      }
    }
  }

  /** Applies one UPDATE: every row with that id gets the new `last_seen` and one more `count`. */
  function ApplyUpdate(rows: seq<TemplateRow>, u: Update): (r: seq<TemplateRow>)
    ensures |r| == |rows|
  {
    seq(|rows|, i requires 0 <= i < |rows| =>
      if rows[i].id == u.templateId then rows[i].(lastSeen := u.lastSeen, count := rows[i].count + 1) else rows[i])
  }

  /** `executemany` of the UPDATEs, in order. */
  function ApplyUpdates(rows: seq<TemplateRow>, ups: seq<Update>): (r: seq<TemplateRow>)
    ensures |r| == |rows|
  {
    if ups == [] then rows else ApplyUpdate(ApplyUpdates(rows, ups[..|ups| - 1]), ups[|ups| - 1])
  }

  /** How many of the UPDATEs name template `id`. */
  function Bumps(ups: seq<Update>, id: nat): nat {
    if ups == [] then 0
    else Bumps(ups[..|ups| - 1], id) + (if ups[|ups| - 1].templateId == id then 1 else 0)
  }

  /** The `last_seen` of the last UPDATE naming `id`, or `previous` when none does. */
  function LastSeenAfter(ups: seq<Update>, id: nat, previous: int): int {
    if ups == [] then previous
    else if ups[|ups| - 1].templateId == id then ups[|ups| - 1].lastSeen
    else LastSeenAfter(ups[..|ups| - 1], id, previous)
  }

  /**
   * The UPDATEs change only `last_seen` and `count`: a row's count grows by one per UPDATE naming it
   * and its `last_seen` becomes that of the last such UPDATE; rows no UPDATE names are unchanged.
   */
  lemma {:induction false} ApplyUpdatesSpec(rows: seq<TemplateRow>, ups: seq<Update>, i: nat)
    requires i < |rows|
    ensures var r := ApplyUpdates(rows, ups)[i];
      && r.id == rows[i].id && r.text == rows[i].text && r.vectorIdx == rows[i].vectorIdx
      && r.firstSeen == rows[i].firstSeen
      && r.count == rows[i].count + Bumps(ups, rows[i].id)
      && r.lastSeen == LastSeenAfter(ups, rows[i].id, rows[i].lastSeen)
  {
    if ups != [] {
      ApplyUpdatesSpec(rows, ups[..|ups| - 1], i);
    }
  }

  /** Every template row's text is a key of the cache (a failed commit leaves extra keys, never missing ones). */
  ghost predicate CachedTexts(templates: seq<TemplateRow>, cache: map<string, CacheEntry>) {
    forall i | 0 <= i < |templates| :: templates[i].text in cache
  }

  /** The occurrence table's primary key: no two rows share an id. */
  ghost predicate UniqueOccurrenceIds(occs: seq<OccurrenceRow>) {
    forall i, j | 0 <= i < j < |occs| :: occs[i].id != occs[j].id
  }

  /** Every parameter row belongs to an existing occurrence. */
  ghost predicate ParametersReferToOccurrences(t: Tables) {
    forall p | p in t.parameters :: exists o | o in t.occurrences :: o.id == p.occurrenceId
  }

  /** `SELECT ... FROM templates WHERE vector_idx=?` then `fetchone()`: the first such row. */
  function TemplateWithVector(rows: seq<TemplateRow>, idx: nat): (r: Option<TemplateRow>)
    ensures r.Some? ==> r.value in rows && r.value.vectorIdx == idx
    ensures r.None? ==> forall i | 0 <= i < |rows| :: rows[i].vectorIdx != idx
    ensures r.Some? && rows != [] && rows[0].vectorIdx == idx ==> r.value == rows[0]
  {
    if rows == [] then None
    else if rows[0].vectorIdx == idx then Some(rows[0])
    else TemplateWithVector(rows[1..], idx)
  }

  /**
   * `SELECT id, timestamp FROM occurrences WHERE template_id=? ORDER BY timestamp DESC LIMIT 1`:
   * a row of that template with the largest timestamp (the first such one in table order).
   */
  function Latest(occs: seq<OccurrenceRow>, templateId: nat): (r: Option<OccurrenceRow>)
    ensures r.Some? ==> r.value in occs && r.value.templateId == templateId
    ensures r.Some? ==> forall i | 0 <= i < |occs| && occs[i].templateId == templateId :: occs[i].timestamp <= r.value.timestamp
    ensures r.None? ==> forall i | 0 <= i < |occs| :: occs[i].templateId != templateId
  {
    if occs == [] then None
    else
      var init := occs[..|occs| - 1];
      var last := occs[|occs| - 1];
      var prev := Latest(init, templateId);
      assert forall i | 0 <= i < |init| :: init[i] == occs[i];
      if last.templateId == templateId && (prev.None? || last.timestamp > prev.value.timestamp) then Some(last)
      else prev
  }

  /** The parameter rows of one occurrence, in table order. */
  function RowsOf(params: seq<ParameterRow>, oid: int): (r: seq<ParameterRow>)
    ensures forall k | 0 <= k < |r| :: r[k].occurrenceId == oid
  {
    if params == [] then []
    else RowsOf(params[..|params| - 1], oid) + (if params[|params| - 1].occurrenceId == oid then [params[|params| - 1]] else [])
  }

  function ByPosition(r: ParameterRow): real {
    -(r.position as real)
  }

  function Values(rows: seq<ParameterRow>): (vs: seq<string>)
    ensures |vs| == |rows|
    ensures forall k | 0 <= k < |rows| :: vs[k] == rows[k].value
  {
    if rows == [] then [] else [rows[0].value] + Values(rows[1..])
  }

  /** `SELECT value FROM parameters WHERE occurrence_id=? ORDER BY position` (equal positions in table order). */
  function ParamValues(params: seq<ParameterRow>, oid: int): seq<string> {
    Values(SortDesc(RowsOf(params, oid), ByPosition))
  }

  lemma {:induction false} RowsOfAppend(a: seq<ParameterRow>, b: seq<ParameterRow>, oid: int)
    ensures RowsOf(a + b, oid) == RowsOf(a, oid) + RowsOf(b, oid)
    decreases |b|
  {
    if b == [] {
      assert a + b == a;
    } else {
      var n := |b| - 1;
      var tail := if b[n].occurrenceId == oid then [b[n]] else [];
      assert (a + b)[..|a + b| - 1] == a + b[..n];
      assert (a + b)[|a + b| - 1] == b[n];
      RowsOfAppend(a, b[..n], oid);
      calc {
        RowsOf(a + b, oid);
        RowsOf(a + b[..n], oid) + tail;
        RowsOf(a, oid) + RowsOf(b[..n], oid) + tail;
        RowsOf(a, oid) + RowsOf(b, oid);
      }
    }
  }

  /** Rows of an occurrence that does not appear in the table. */
  lemma {:induction false} RowsOfAbsent(params: seq<ParameterRow>, oid: int)
    requires forall i | 0 <= i < |params| :: params[i].occurrenceId != oid
    ensures RowsOf(params, oid) == []
  {
    if params != [] {
      RowsOfAbsent(params[..|params| - 1], oid);
    }
  }

  lemma {:induction false} RowsOfAll(params: seq<ParameterRow>, oid: int)
    requires forall i | 0 <= i < |params| :: params[i].occurrenceId == oid
    ensures RowsOf(params, oid) == params
  {
    if params != [] {
      RowsOfAll(params[..|params| - 1], oid);
    }
  }
}
