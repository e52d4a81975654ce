/**
 * Undoing a run from its log (RollbackManager.rollback_run): the recorded keys are deleted
 * table by table, the tables in reverse order of the log, in batches of at most 100 keys,
 * all in one transaction that is committed only when every DELETE succeeded.
 */
module Rollback {
  import opened Results
  import opened Text
  import opened TableParser
  import opened Scenarios
  import opened Database
  import opened Provisioning
  import opened SqlText

  /** The batch size of the DELETE statements. */
  const ChunkSize := 100

  function Min(a: int, b: int): int {
    if a <= b then a else b
  }

  /** [ids[i:i + 100] for i in range(0, len(ids), 100)] */
  function Chunks(ids: seq<int>): (r: seq<seq<int>>)
    ensures |r| == (|ids| + ChunkSize - 1) / ChunkSize
  {
    seq((|ids| + ChunkSize - 1) / ChunkSize, k requires 0 <= k => ids[Min(k * ChunkSize, |ids|)..Min(k * ChunkSize + ChunkSize, |ids|)])
  }

  /** The concatenation of the batches. */
  function Flatten(chunks: seq<seq<int>>): seq<int>
    decreases |chunks|
  {
    if chunks == [] then [] else Flatten(chunks[..|chunks| - 1]) + chunks[|chunks| - 1]
  }

  /** The first c batches hold the first 100 * c keys. */
  lemma {:induction false} FlattenPrefix(ids: seq<int>, c: nat)
    requires c <= |Chunks(ids)|
    ensures Flatten(Chunks(ids)[..c]) == ids[..Min(c * ChunkSize, |ids|)]
    decreases c
  {
    var chunks := Chunks(ids);
    if c == 0 {
      assert chunks[..0] == [];
    } else {
      assert chunks[..c][..c - 1] == chunks[..c - 1];
      FlattenPrefix(ids, c - 1);
      var a := Min((c - 1) * ChunkSize, |ids|);
      var b := Min(c * ChunkSize, |ids|);
      assert chunks[c - 1] == ids[a..b];
      assert ids[..a] + ids[a..b] == ids[..b];
    }
  }

  /** The batches hold exactly the keys, in order. */
  lemma {:induction false} ChunksCover(ids: seq<int>)
    ensures Flatten(Chunks(ids)) == ids
  {
    FlattenPrefix(ids, |Chunks(ids)|);
    assert Chunks(ids)[..|Chunks(ids)|] == Chunks(ids);
  }

  /** Every batch holds between 1 and 100 keys, and all but the last exactly 100. */
  lemma {:induction false} ChunkSizes(ids: seq<int>)
    ensures forall k :: 0 <= k < |Chunks(ids)| ==> 1 <= |Chunks(ids)[k]| <= ChunkSize
    ensures forall k :: 0 <= k < |Chunks(ids)| - 1 ==> |Chunks(ids)[k]| == ChunkSize
  {
  }

  /** Whether rollback_run deletes the keys of a log entry: a known table with a primary key, and some keys. */
  predicate Deletes(e: TableKeys, schema: Schema) {
    e.table in schema && Truthy(schema[e.table].primaryKey) && e.keys != []
  }

  /** The entries rollback_run deletes, in the order it deletes them: the log reversed, filtered. */
  function DeletePlan(log: Ledger, schema: Schema): (r: Ledger)
    ensures forall e :: e in r ==> e in log && Deletes(e, schema)
    ensures forall e :: e in log && Deletes(e, schema) ==> e in r
    decreases |log|
  {
    if log == [] then []
    else
      var rest := DeletePlan(log[1..], schema);
      assert forall e :: e in log[1..] ==> e in log;
      rest + (if Deletes(log[0], schema) then [log[0]] else [])
  }

  /** The log in reverse order. */
  function Reverse(log: Ledger): (r: Ledger)
    ensures |r| == |log| && forall k :: 0 <= k < |log| ==> r[k] == log[|log| - 1 - k]
  {
    seq(|log|, k requires 0 <= k < |log| => log[|log| - 1 - k])
  }

  /** The entries of a ledger that rollback_run deletes, in the ledger's own order. */
  function Keep(log: Ledger, schema: Schema): Ledger
    decreases |log|
  {
    if log == [] then [] else (if Deletes(log[0], schema) then [log[0]] else []) + Keep(log[1..], schema)
  }

  lemma {:induction false} KeepSnoc(log: Ledger, e: TableKeys, schema: Schema)
    ensures Keep(log + [e], schema) == Keep(log, schema) + (if Deletes(e, schema) then [e] else [])
    decreases |log|
  {
    if log == [] {
      assert ([] + [e])[1..] == [];
    } else {
      assert (log + [e])[0] == log[0] && (log + [e])[1..] == log[1..] + [e];
      KeepSnoc(log[1..], e, schema);
    }
  }

  /**
   * for tname in reversed(list(inserted_rows.keys())): the plan is the log walked from its
   * last entry to its first, keeping the entries with keys of a known table with a primary key.
   */
  lemma {:induction false} DeletePlanReversed(log: Ledger, schema: Schema)
    ensures DeletePlan(log, schema) == Keep(Reverse(log), schema)
    decreases |log|
  {
    if log != [] {
      DeletePlanReversed(log[1..], schema);
      assert Reverse(log) == Reverse(log[1..]) + [log[0]];
      KeepSnoc(Reverse(log[1..]), log[0], schema);
    }
  }

  /** The key column named in the DELETEs of a table: its primary key. */
  function KeyColumn(schema: Schema, t: string): string {
    if t in schema && schema[t].primaryKey.Some? then schema[t].primaryKey.value else ""
  }

  /** The DELETE statements of one table: one per batch of its keys, in order. */
  function Batches(table: string, keyColumn: string, ids: seq<int>): (r: seq<Deletion>)
    ensures |r| == |Chunks(ids)|
  {
    seq(|Chunks(ids)|, k requires 0 <= k < |Chunks(ids)| => Deletion(table, keyColumn, Chunks(ids)[k]))
  }

  /** The keys of a sequence of DELETE statements, concatenated. */
  function DeletedKeys(ds: seq<Deletion>): seq<int>
    decreases |ds|
  {
    if ds == [] then [] else DeletedKeys(ds[..|ds| - 1]) + ds[|ds| - 1].keys
  }

  /**
   * The DELETEs of one table name that table and its primary key, hold between 1 and 100
   * keys each, and together delete exactly the table's keys, in the order they were logged.
   */
  lemma {:induction false} BatchesCover(table: string, keyColumn: string, ids: seq<int>)
    ensures forall k :: 0 <= k < |Batches(table, keyColumn, ids)| ==>
      && Batches(table, keyColumn, ids)[k].table == table
      && Batches(table, keyColumn, ids)[k].keyColumn == keyColumn
      && 1 <= |Batches(table, keyColumn, ids)[k].keys| <= ChunkSize
    ensures DeletedKeys(Batches(table, keyColumn, ids)) == ids
  {
    ChunkSizes(ids);
    ChunksCover(ids);
    BatchKeys(Batches(table, keyColumn, ids), Chunks(ids), |Chunks(ids)|);
    assert Batches(table, keyColumn, ids)[..|Chunks(ids)|] == Batches(table, keyColumn, ids);
    assert Chunks(ids)[..|Chunks(ids)|] == Chunks(ids);
  }

  lemma {:induction false} BatchKeys(ds: seq<Deletion>, chunks: seq<seq<int>>, c: nat)
    requires c <= |ds| == |chunks| && forall k :: 0 <= k < |ds| ==> ds[k].keys == chunks[k]
    ensures DeletedKeys(ds[..c]) == Flatten(chunks[..c])
    decreases c
  {
    if c > 0 {
      assert ds[..c][..c - 1] == ds[..c - 1] && chunks[..c][..c - 1] == chunks[..c - 1];
      BatchKeys(ds, chunks, c - 1);
    }
  }

  /** Every DELETE statement of a plan, table by table in plan order. */
  function Statements(plan: Ledger, schema: Schema): seq<Deletion>
    decreases |plan|
  {
    if plan == [] then []
    else
      var e := plan[|plan| - 1];
      Statements(plan[..|plan| - 1], schema) + Batches(e.table, KeyColumn(schema, e.table), e.keys)
  }

  /** The committed keys after the plan's keys were deleted. */
  function Removed(committed: map<string, set<int>>, plan: Ledger): (r: map<string, set<int>>)
    ensures r.Keys == committed.Keys
  {
    map t | t in committed :: committed[t] - Elems(KeysFor(plan, t))
  }

  /** The messages rollback_run returns. */
  function MissingLog(filePath: string): string {
    "run 로그 파일을 찾을 수 없습니다: " + filePath
  }

  const ErrorPrefix := "롤백 중 오류 발생: "

  function RollbackError(e: string): string {
    ErrorPrefix + e
  }

  function RollbackDone(runId: string): string {
    "run_id=" + runId + " 롤백 완료"
  }

  /** The three kinds of message cannot be mistaken for one another. */
  lemma {:induction false} MessagesDiffer(filePath: string, e: string, runId: string)
    ensures MissingLog(filePath) != RollbackError(e)
    ensures MissingLog(filePath) != RollbackDone(runId)
    ensures RollbackError(e) != RollbackDone(runId)
    ensures StartsWith(RollbackError(e), ErrorPrefix) && !StartsWith(RollbackDone(runId), ErrorPrefix)
    ensures !StartsWith(MissingLog(filePath), ErrorPrefix)
  {
    assert MissingLog(filePath)[0] == 'r' && RollbackDone(runId)[0] == 'r';
    assert MissingLog(filePath)[3] == ' ' && RollbackDone(runId)[3] == '_';
    assert RollbackError(e)[0] == '롤';
  }

  /** The number of keys in the first c batches. */
  function Upto(c: nat, n: nat): nat {
    Min(c * ChunkSize, n)
  }

  lemma {:induction false} ChunkAt(ids: seq<int>, c: nat)
    requires c < |Chunks(ids)|
    ensures Upto(c, |ids|) <= Upto(c + 1, |ids|) <= |ids|
    ensures Chunks(ids)[c] == ids[Upto(c, |ids|)..Upto(c + 1, |ids|)]
    ensures Elems(ids[..Upto(c, |ids|)]) + Elems(Chunks(ids)[c]) == Elems(ids[..Upto(c + 1, |ids|)])
  {
    var a, b := Upto(c, |ids|), Upto(c + 1, |ids|);
    assert ids[..a] + ids[a..b] == ids[..b];
  }

  lemma {:induction false} AllChunks(n: nat)
    ensures Upto((n + ChunkSize - 1) / ChunkSize, n) == n
  {
    var q := (n + ChunkSize - 1) / ChunkSize;
    assert q * ChunkSize >= n;
  }

  /** The pending keys after the first c batches of ids were deleted from `table`, starting from p0. */
  ghost predicate DeletedSoFar(pending: map<string, set<int>>, p0: map<string, set<int>>, table: string, ids: seq<int>, c: nat) {
    && (c > 0 ==> table in p0 && pending == p0[table := p0[table] - Elems(ids[..Upto(c, |ids|)])])
    && (c == 0 ==> pending == p0)
  }

  /** One more batch deleted: the deleted keys grow by that batch. */
  lemma {:induction false} DeletedStep(pending: map<string, set<int>>, p0: map<string, set<int>>, table: string, ids: seq<int>, c: nat)
    requires c < |Chunks(ids)| && DeletedSoFar(pending, p0, table, ids, c) && table in pending
    ensures table in p0
    ensures DeletedSoFar(pending[table := pending[table] - Elems(Chunks(ids)[c])], p0, table, ids, c + 1)
  {
    ChunkAt(ids, c);
    var done := Elems(ids[..Upto(c, |ids|)]);
    if c == 0 {
      assert done == {};
      assert pending[table] == p0[table] - done;
    }
    assert pending[table] == p0[table] - done;
    assert pending[table] - Elems(Chunks(ids)[c]) == p0[table] - Elems(ids[..Upto(c + 1, |ids|)]);
  }

  /**
   * The DELETEs of one table, batch by batch. An error stops at once; the caller rolls back
   * what the earlier batches deleted.
   */
  method DeleteKeys(db: Server, table: string, pk: string, ids: seq<int>) returns (r: Result<(), string>)
    requires db.Valid() && ids != []
    modifies db
    ensures db.Valid() && db.committed == old(db.committed) && db.nextId == old(db.nextId)
    ensures r.Ok? ==> table in old(db.pending) && db.pending == old(db.pending)[table := old(db.pending)[table] - Elems(ids)]
    ensures r.Ok? ==> db.deletes == old(db.deletes) + Batches(table, pk, ids)
  {
    var chunks := Chunks(ids);
    ghost var p0, d0 := db.pending, db.deletes;
    var c := 0;
    assert d0 + Batches(table, pk, ids)[..0] == d0;
    while c < |chunks|
      invariant 0 <= c <= |chunks|
      invariant db.Valid() && db.committed == old(db.committed) && db.nextId == old(db.nextId)
      invariant DeletedSoFar(db.pending, p0, table, ids, c)
      invariant db.deletes == d0 + Batches(table, pk, ids)[..c]
    {
      var deleted := DeleteBatch(db, table, pk, ids, c, p0, d0);
      if deleted.Err? {
        return Err(deleted.error);
      }
      c := c + 1;
    }
    AllChunks(|ids|);
    assert ids[..Upto(c, |ids|)] == ids;
    assert Batches(table, pk, ids)[..c] == Batches(table, pk, ids);
    r := Ok(());
  }

  /** One DELETE of DeleteKeys: the c-th batch of keys, with one placeholder per key. */
  method DeleteBatch(db: Server, table: string, pk: string, ids: seq<int>, c: nat,
                     ghost p0: map<string, set<int>>, ghost d0: seq<Deletion>)
    returns (r: Result<(), string>)
    requires db.Valid() && c < |Chunks(ids)|
    requires DeletedSoFar(db.pending, p0, table, ids, c)
    requires db.deletes == d0 + Batches(table, pk, ids)[..c]
    modifies db
    ensures db.Valid() && db.committed == old(db.committed) && db.nextId == old(db.nextId)
    ensures r.Ok? ==> DeletedSoFar(db.pending, p0, table, ids, c + 1)
    ensures r.Ok? ==> db.deletes == d0 + Batches(table, pk, ids)[..c + 1]
  {
    var chunk := Chunks(ids)[c];
    ghost var before := db.pending;
    var placeholders := Placeholders(|chunk|);
    PlaceholderCount(|chunk|);
    r := db.Delete(table, pk, placeholders, chunk);
    if r.Ok? {
      assert (set k | k in chunk) == Elems(chunk);
      DeletedStep(before, p0, table, ids, c);
      assert Batches(table, pk, ids)[..c + 1] == Batches(table, pk, ids)[..c] + [Deletion(table, pk, chunk)];
    }
  }

  /**
   * rollback_run, given the log file's contents (None when no file is at the path): deletes
   * the recorded keys in one transaction and reports the outcome.
   */
  method RollbackRun(db: Server, schema: Schema, runId: string, filePath: string, log: Option<Ledger>)
    returns (message: string)
    requires db.Valid() && db.pending == db.committed
    requires log.Some? ==> DistinctTables(log.value)
    modifies db
    ensures db.Valid() && db.pending == db.committed && db.nextId == old(db.nextId)
    ensures log.None? ==> message == MissingLog(filePath) && db.committed == old(db.committed)
    ensures log.Some? ==>
      || (message == RollbackDone(runId) && db.committed == Removed(old(db.committed), DeletePlan(log.value, schema)))
      || (StartsWith(message, ErrorPrefix) && db.committed == old(db.committed))
    ensures log.Some? && message == RollbackDone(runId) ==>
      forall e :: e in DeletePlan(log.value, schema) ==> e.table in old(db.committed)
    ensures log.Some? && message == RollbackDone(runId) ==>
      db.deletes == old(db.deletes) + Statements(DeletePlan(log.value, schema), schema)
    ensures log.None? ==> db.deletes == old(db.deletes)
  {
    if log.None? {
      return MissingLog(filePath);
    }
    var entries := log.value;
    ghost var c0, d0 := db.committed, db.deletes;
    var j := |entries|;
    RemovedNothing(c0);
    assert entries[j..] == [];
    while j > 0
      invariant 0 <= j <= |entries|
      invariant db.Valid() && db.committed == c0 && db.nextId == old(db.nextId)
      invariant PlanDone(db.pending, c0, entries[j..], schema)
      invariant db.deletes == d0 + Statements(DeletePlan(entries[j..], schema), schema)
    {
      var deleted := DeleteEntry(db, schema, entries, j - 1, c0);
      if deleted.Err? {
        db.Rollback();
        MessagesDiffer(filePath, deleted.error, runId);
        return RollbackError(deleted.error);
      }
      StatementsStep(d0, entries, j - 1, schema);
      j := j - 1;
    }
    db.Commit();
    assert entries[0..] == entries;
    message := RollbackDone(runId);
  }

  /** The transaction after the DELETEs of the planned entries of `done`, each of an existing table. */
  predicate PlanDone(pending: map<string, set<int>>, committed: map<string, set<int>>, done: Ledger, schema: Schema) {
    var plan := DeletePlan(done, schema);
    && pending == Removed(committed, plan)
    && (forall e :: e in plan ==> e.table in committed)
    && DistinctTables(plan)
  }

  /** One turn of the loop over the reversed log: the j-th entry is skipped or its keys deleted. */
  method DeleteEntry(db: Server, schema: Schema, entries: Ledger, j: nat, ghost c0: map<string, set<int>>)
    returns (r: Result<(), string>)
    requires j < |entries| && DistinctTables(entries)
    requires db.Valid() && db.committed == c0
    requires PlanDone(db.pending, c0, entries[j + 1..], schema)
    modifies db
    ensures db.Valid() && db.committed == c0 && db.nextId == old(db.nextId)
    ensures r.Ok? ==> PlanDone(db.pending, c0, entries[j..], schema)
    ensures r.Ok? ==> db.deletes == old(db.deletes) + EntryStatements(entries[j], schema)
  {
    var e := entries[j];
    PlanStep(entries, j, schema);
    if !Deletes(e, schema) {
      assert DeletePlan(entries[j..], schema) == DeletePlan(entries[j + 1..], schema);
      assert db.deletes + [] == db.deletes;
      return Ok(());
    }
    var plan := DeletePlan(entries[j + 1..], schema);
    NotYetDeleted(entries, j, plan);
    var pk := schema[e.table].primaryKey.value;
    assert pk == KeyColumn(schema, e.table);
    r := DeleteKeys(db, e.table, pk, e.keys);
    if r.Ok? {
      RemovedSnoc(c0, plan, e);
      assert DeletePlan(entries[j..], schema) == plan + [e];
    }
  }

  /** The DELETE statements rollback_run issues for one log entry. */
  function EntryStatements(e: TableKeys, schema: Schema): seq<Deletion> {
    if Deletes(e, schema) then Batches(e.table, KeyColumn(schema, e.table), e.keys) else []
  }

  /** The DELETEs of the j-th entry follow those of the later entries of the log. */
  lemma {:induction false} StatementsStep(d0: seq<Deletion>, entries: Ledger, j: nat, schema: Schema)
    requires j < |entries|
    ensures d0 + Statements(DeletePlan(entries[j..], schema), schema)
      == (d0 + Statements(DeletePlan(entries[j + 1..], schema), schema)) + EntryStatements(entries[j], schema)
  {
    var plan := DeletePlan(entries[j + 1..], schema);
    PlanStep(entries, j, schema);
    if Deletes(entries[j], schema) {
      StatementsSnoc(d0, plan, entries[j], schema);
    } else {
      assert plan + [] == plan;
      var before := d0 + Statements(plan, schema);
      assert before + [] == before;
    }
  }

  lemma {:induction false} StatementsSnoc(d0: seq<Deletion>, plan: Ledger, e: TableKeys, schema: Schema)
    ensures d0 + Statements(plan + [e], schema) == (d0 + Statements(plan, schema)) + Batches(e.table, KeyColumn(schema, e.table), e.keys)
  {
    assert (plan + [e])[..|plan|] == plan;
  }

  lemma {:induction false} PlanStep(entries: Ledger, j: nat, schema: Schema)
    requires j < |entries|
    ensures entries[j..][1..] == entries[j + 1..] && entries[j..][0] == entries[j]
    ensures DeletePlan(entries[j..], schema) ==
      DeletePlan(entries[j + 1..], schema) + (if Deletes(entries[j], schema) then [entries[j]] else [])
  {
    assert entries[j..][1..] == entries[j + 1..];
  }

  /** A later log entry names another table than the j-th, for a log with one entry per table. */
  lemma {:induction false} NotYetDeleted(entries: Ledger, j: nat, plan: Ledger)
    requires j < |entries| && DistinctTables(entries)
    requires forall e :: e in plan ==> e in entries[j + 1..]
    ensures forall k :: 0 <= k < |plan| ==> plan[k].table != entries[j].table
  {
    forall k | 0 <= k < |plan| ensures plan[k].table != entries[j].table {
      assert plan[k] in plan;
      var i :| 0 <= i < |entries[j + 1..]| && entries[j + 1..][i] == plan[k];
      assert entries[j + 1 + i] == plan[k];
    }
  }

  lemma {:induction false} RemovedNothing(committed: map<string, set<int>>)
    ensures Removed(committed, []) == committed
  {
    forall t | t in committed ensures Removed(committed, [])[t] == committed[t] {
      assert Elems(KeysFor([], t)) == {};
    }
  }

  lemma {:induction false} RemovedSnoc(committed: map<string, set<int>>, plan: Ledger, e: TableKeys)
    requires e.table in committed
    requires forall k :: 0 <= k < |plan| ==> plan[k].table != e.table
    ensures Removed(committed, plan + [e]) == Removed(committed, plan)[e.table := Removed(committed, plan)[e.table] - Elems(e.keys)]
  {
    var a := Removed(committed, plan + [e]);
    var b := Removed(committed, plan)[e.table := Removed(committed, plan)[e.table] - Elems(e.keys)];
    forall u | u in committed ensures a[u] == b[u] {
      KeysForSnoc(plan, e.table, e.keys, u);
      if u == e.table {
        KeysForFound(plan, e.table);
        assert Elems([]) == {};
        assert a[u] == committed[u] - Elems(e.keys);
      } else {
        assert a[u] == committed[u] - Elems(KeysFor(plan, u));
      }
    }
    assert a.Keys == b.Keys;
  }

  /** In a ledger with one entry per table, the keys found for an entry's table are that entry's. */
  lemma {:induction false} KeysForEntry(ledger: Ledger, i: nat)
    requires i < |ledger| && DistinctTables(ledger)
    ensures KeysFor(ledger, ledger[i].table) == ledger[i].keys
    decreases i
  {
    if i > 0 {
      assert DistinctTables(ledger[1..]) by {
        assert forall k :: 0 <= k < |ledger| - 1 ==> ledger[1..][k] == ledger[k + 1];
      }
      assert ledger[1..][i - 1] == ledger[i];
      KeysForEntry(ledger[1..], i - 1);
    }
  }

  /** Two ledgers with one entry per table and the same entries find the same keys. */
  lemma {:induction false} SameEntriesSameKeys(a: Ledger, b: Ledger, t: string)
    requires DistinctTables(a) && DistinctTables(b)
    requires forall e :: e in a <==> e in b
    ensures KeysFor(a, t) == KeysFor(b, t)
  {
    if exists i :: 0 <= i < |a| && a[i].table == t {
      var i :| 0 <= i < |a| && a[i].table == t;
      KeysForEntry(a, i);
      assert a[i] in b;
      var k :| 0 <= k < |b| && b[k] == a[i];
      KeysForEntry(b, k);
    } else {
      forall k | 0 <= k < |b| ensures b[k].table != t {
        assert b[k] in a;
      }
      KeysForFound(a, t);
      KeysForFound(b, t);
    }
  }

  /** The plan of a log with one entry per table has one entry per table. */
  lemma {:induction false} DeletePlanDistinct(log: Ledger, schema: Schema)
    requires DistinctTables(log)
    ensures DistinctTables(DeletePlan(log, schema))
    decreases |log|
  {
    if log != [] {
      assert DistinctTables(log[1..]) by {
        assert forall k :: 0 <= k < |log| - 1 ==> log[1..][k] == log[k + 1];
      }
      DeletePlanDistinct(log[1..], schema);
      var rest := DeletePlan(log[1..], schema);
      forall k | 0 <= k < |rest| ensures rest[k].table != log[0].table {
        assert rest[k] in rest;
        var i :| 0 <= i < |log[1..]| && log[1..][i] == rest[k];
        assert log[i + 1] == rest[k];
      }
    }
  }

  /** rollback_run deletes every entry of a planned ledger. */
  lemma {:induction false} PlannedAllDeleted(scenario: Scenario, schema: Schema, next: map<string, int>)
    ensures forall e :: e in Planned(scenario, schema, next) ==> Deletes(e, schema)
  {
    PlannedFrom(scenario, schema, next);
    forall e | e in Planned(scenario, schema, next) ensures Deletes(e, schema) {
      var j :| 0 <= j < |scenario| && Eligible(scenario[j], schema) && e == PlanEntry(scenario[j], next);
      assert |e.keys| == scenario[j].count;
    }
  }

  lemma {:induction false} RestoredAt(committed: map<string, set<int>>, ledger: Ledger, plan: Ledger, t: string)
    requires t in committed && KeysFor(plan, t) == KeysFor(ledger, t)
    requires committed[t] !! Elems(KeysFor(ledger, t))
    ensures Removed(Added(committed, ledger), plan)[t] == committed[t]
  {
  }

  /**
   * Rolling back a successful run right after it restores the committed keys: the run's
   * ledger is the planned one, its keys are fresh, and every entry is one rollback_run deletes.
   */
  lemma {:induction false} RollbackUndoesRun(committed: map<string, set<int>>, next: map<string, int>, scenario: Scenario, schema: Schema)
    requires committed.Keys == next.Keys && forall t :: t in committed ==> Below(committed[t], next[t])
    requires DistinctNames(scenario)
    ensures Removed(Added(committed, Planned(scenario, schema, next)), DeletePlan(Planned(scenario, schema, next), schema)) == committed
  {
    var ledger := Planned(scenario, schema, next);
    var plan := DeletePlan(ledger, schema);
    PlannedDistinct(scenario, schema, next);
    DeletePlanDistinct(ledger, schema);
    PlannedAllDeleted(scenario, schema, next);
    var r := Removed(Added(committed, ledger), plan);
    forall t | t in committed ensures r[t] == committed[t] {
      SameEntriesSameKeys(ledger, plan, t);
      PlannedKeysFresh(scenario, schema, next, committed, t);
      RestoredAt(committed, ledger, plan, t);
    }
  }

  /** Rolling back twice deletes nothing more, and a rollback deletes only the plan's keys. */
  lemma {:induction false} RemovedOnlyRecorded(committed: map<string, set<int>>, plan: Ledger)
    ensures Removed(Removed(committed, plan), plan) == Removed(committed, plan)
    ensures forall t :: t in committed ==>
      Removed(committed, plan)[t] <= committed[t] && committed[t] - Removed(committed, plan)[t] <= Elems(KeysFor(plan, t))
  {
    var once := Removed(committed, plan);
    forall t | t in committed ensures Removed(once, plan)[t] == once[t] {
    }
  }
}
