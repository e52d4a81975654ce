/**
 * Filling the scenario's tables with random rows in one transaction and recording the
 * keys the database assigned (TestDataGenerator.generate_and_insert and _build_row_values).
 */
module Provisioning {
  import opened Results
  import opened Text
  import opened TableParser
  import opened Scenarios
  import opened Database
  import opened SqlText

  /** The keys inserted into one table, in insertion order. */
  datatype TableKeys = TableKeys(table: string, keys: seq<int>)

  /** inserted_rows: one entry per table, in the order the tables were first inserted into. */
  type Ledger = seq<TableKeys>

  datatype RunLogEntry = RunLogEntry(runId: string, createdAt: string, profile: string, scenario: string, insertedRows: Ledger)

  predicate DistinctTables(ledger: Ledger) {
    forall i, j :: 0 <= i < j < |ledger| ==> ledger[i].table != ledger[j].table
  }

  /** inserted_rows.get(t, []) */
  function KeysFor(ledger: Ledger, t: string): seq<int> {
    if ledger == [] then []
    else if ledger[0].table == t then ledger[0].keys
    else KeysFor(ledger[1..], t)
  }

  /** The keys found for t are those of an entry for t; a ledger without t has none. */
  lemma {:induction false} KeysForFound(ledger: Ledger, t: string)
    ensures var r := KeysFor(ledger, t);
      r != [] ==> exists i :: 0 <= i < |ledger| && ledger[i] == TableKeys(t, r)
    ensures (forall i :: 0 <= i < |ledger| ==> ledger[i].table != t) ==> KeysFor(ledger, t) == []
  {
    if ledger != [] && ledger[0].table != t {
      KeysForFound(ledger[1..], t);
      var r := KeysFor(ledger[1..], t);
      if r != [] {
        var i :| 0 <= i < |ledger[1..]| && ledger[1..][i] == TableKeys(t, r);
        assert ledger[i + 1] == TableKeys(t, r);
      }
      if forall i :: 0 <= i < |ledger| ==> ledger[i].table != t {
        assert forall i :: 0 <= i < |ledger[1..]| ==> ledger[1..][i] == ledger[i + 1];
      }
    }
  }

  /**
   * The parent table of a relation "parent_table.parent_key": the text before the dot,
   * or None when rel.split(".") does not give exactly two parts.
   */
  function ParentTable(rel: string): Option<string> {
    if CountChar(rel, '.') == 1 then Some(rel[..IndexOf(rel, '.')]) else None
  }

  /** The first matching type bucket of a column type. */
  datatype Bucket = IntBucket | TextBucket | DateTimeBucket | DateBucket | OtherBucket

  function BucketOf(sqlType: string): Bucket {
    var u := Upper(sqlType);
    if Contains(u, "INT") then IntBucket
    else if Contains(u, "CHAR") || Contains(u, "TEXT") then TextBucket
    else if Contains(u, "DATE") || Contains(u, "TIME") then
      (if Contains(u, "DATETIME") || Contains(u, "TIMESTAMP") then DateTimeBucket else DateBucket)
    else OtherBucket
  }

  /** random_string(n): n letters or digits. */
  predicate AlnumText(s: string, n: nat) {
    |s| == n && forall k :: 0 <= k < |s| ==> IsAlnum(s[k])
  }

  predicate DigitsAt(s: string, from: nat, to: nat)
    requires from <= to <= |s|
  {
    forall k :: from <= k < to ==> IsDigit(s[k])
  }

  /** A "%Y-%m-%d" string. */
  predicate DateShape(s: string) {
    |s| == 10 && DigitsAt(s, 0, 4) && s[4] == '-' && DigitsAt(s, 5, 7) && s[7] == '-' && DigitsAt(s, 8, 10)
  }

  /** A "%Y-%m-%d %H:%M:%S" string. */
  predicate DateTimeShape(s: string) {
    && |s| == 19 && DateShape(s[..10]) && s[10] == ' '
    && DigitsAt(s, 11, 13) && s[13] == ':' && DigitsAt(s, 14, 16) && s[16] == ':' && DigitsAt(s, 17, 19)
  }

  /** The values the generator may produce for a column of the bucket. */
  predicate FitsBucket(b: Bucket, v: Value) {
    match b
    case IntBucket => v.IntValue? && 1 <= v.i <= 10000
    case TextBucket => v.TextValue? && AlnumText(v.s, 12)
    case DateTimeBucket => v.TextValue? && DateTimeShape(v.s)
    case DateBucket => v.TextValue? && DateShape(v.s)
    case OtherBucket => v.TextValue? && AlnumText(v.s, 8)
  }

  /**
   * The values a column may get: a relation column takes a key of its parent table
   * inserted so far, or None when there is none; any other column a value of its bucket.
   */
  predicate Admissible(c: Column, relations: Relations, ledger: Ledger, v: Value) {
    if c.name in relations then
      && ParentTable(relations[c.name]).Some?
      && var ids := KeysFor(ledger, ParentTable(relations[c.name]).value);
         if ids == [] then v == Null else v.IntValue? && v.i in ids
    else FitsBucket(BucketOf(c.sqlType), v)
  }

  /** The columns an INSERT names: all but the primary ones, in declaration order. */
  function RowColumns(cols: seq<Column>): (r: seq<Column>)
    ensures |r| <= |cols|
    ensures forall k :: 0 <= k < |r| ==> !r[k].isPrimary && r[k] in cols
    ensures forall c :: c in cols && !c.isPrimary ==> c in r
    decreases |cols|
  {
    if cols == [] then []
    else
      var init := cols[..|cols| - 1];
      assert cols == init + [cols[|cols| - 1]];
      RowColumns(init) + (if cols[|cols| - 1].isPrimary then [] else [cols[|cols| - 1]])
  }

  /** Every relation descriptor of a non-primary column splits into a table and a key. */
  predicate RelationsReadable(cols: seq<Column>, relations: Relations) {
    forall k :: 0 <= k < |cols| && !cols[k].isPrimary && cols[k].name in relations ==>
      ParentTable(relations[cols[k].name]).Some?
  }

  /** A row fits the table: one value per non-primary column, each admissible. */
  predicate RowFits(cols: seq<Column>, relations: Relations, ledger: Ledger, names: seq<string>, values: seq<Value>) {
    var rc := RowColumns(cols);
    && |names| == |rc| && |values| == |rc|
    && forall k :: 0 <= k < |rc| ==> names[k] == rc[k].name && Admissible(rc[k], relations, ledger, values[k])
  }

  /**
   * One row for `table`: the column names and the values, drawn at random within what
   * the column's relation or type allows; an error where a relation cannot be split.
   */
  method BuildRowValues(table: Table, st: ScenarioTable, ledger: Ledger) returns (r: Result<(seq<string>, seq<Value>), string>)
    ensures r.Ok? <==> RelationsReadable(table.columns, st.relations)
    ensures r.Ok? ==> RowFits(table.columns, st.relations, ledger, r.value.0, r.value.1)
  {
    var cols := table.columns;
    var names: seq<string> := [];
    var values: seq<Value> := [];
    var j := 0;
    while j < |cols|
      invariant 0 <= j <= |cols|
      invariant RelationsReadable(cols[..j], st.relations)
      invariant RowFits(cols[..j], st.relations, ledger, names, values)
    {
      var step := AddColumn(cols, j, st.relations, ledger, names, values);
      if step.Err? {
        return Err(step.error);
      }
      names, values := step.value.0, step.value.1;
      j := j + 1;
    }
    assert cols[..j] == cols;
    r := Ok((names, values));
  }

  /** One turn of the column loop: a primary column is skipped, any other gets its value. */
  method AddColumn(cols: seq<Column>, j: nat, relations: Relations, ledger: Ledger, names: seq<string>, values: seq<Value>)
    returns (r: Result<(seq<string>, seq<Value>), string>)
    requires j < |cols|
    requires RelationsReadable(cols[..j], relations) && RowFits(cols[..j], relations, ledger, names, values)
    ensures r.Err? ==> !RelationsReadable(cols, relations)
    ensures r.Ok? ==> RelationsReadable(cols[..j + 1], relations)
    ensures r.Ok? ==> RowFits(cols[..j + 1], relations, ledger, r.value.0, r.value.1)
  {
    var col := cols[j];
    RowStep(cols, j, relations);
    if col.isPrimary {
      return Ok((names, values));
    }
    var val := ColumnValue(col, relations, ledger);
    if val.Err? {
      assert !RelationsReadable(cols, relations) by {
        assert !cols[j].isPrimary && cols[j].name in relations;
      }
      return Err(val.error);
    }
    RowFitsSnoc(cols[..j], col, relations, ledger, names, values, val.value);
    r := Ok((names + [col.name], values + [val.value]));
  }

  lemma {:induction false} RowStep(cols: seq<Column>, j: nat, relations: Relations)
    requires j < |cols|
    ensures cols[..j + 1] == cols[..j] + [cols[j]]
    ensures RowColumns(cols[..j + 1]) == RowColumns(cols[..j]) + (if cols[j].isPrimary then [] else [cols[j]])
    ensures RelationsReadable(cols[..j + 1], relations) <==>
      RelationsReadable(cols[..j], relations) &&
      (!cols[j].isPrimary && cols[j].name in relations ==> ParentTable(relations[cols[j].name]).Some?)
  {
    assert cols[..j + 1][..j] == cols[..j];
  }

  lemma {:induction false} RowFitsSnoc(cols: seq<Column>, c: Column, relations: Relations, ledger: Ledger,
                    names: seq<string>, values: seq<Value>, v: Value)
    requires RowFits(cols, relations, ledger, names, values)
    requires !c.isPrimary && Admissible(c, relations, ledger, v)
    requires RowColumns(cols + [c]) == RowColumns(cols) + [c]
    ensures RowFits(cols + [c], relations, ledger, names + [c.name], values + [v])
  {
  }

  /** The value of one non-primary column. */
  method ColumnValue(col: Column, relations: Relations, ledger: Ledger) returns (r: Result<Value, string>)
    ensures r.Ok? <==> (col.name in relations ==> ParentTable(relations[col.name]).Some?)
    ensures r.Ok? ==> Admissible(col, relations, ledger, r.value)
  {
    if col.name in relations {
      var rel := relations[col.name];
      if CountChar(rel, '.') != 1 {
        return Err("ValueError: not exactly two parts in " + rel);
      }
      var parentTable := rel[..IndexOf(rel, '.')];
      var parentIds := KeysFor(ledger, parentTable);
      if parentIds == [] {
        r := Ok(Null);
      } else {
        var k: int :| 0 <= k < |parentIds|;
        r := Ok(IntValue(parentIds[k]));
      }
    } else {
      var v := RandomValue(col.sqlType);
      r := Ok(v);
    }
  }

  /** random_int(), random_string(12), a date-time, a date or random_string(8), by the type's bucket. */
  method RandomValue(sqlType: string) returns (v: Value)
    ensures FitsBucket(BucketOf(sqlType), v)
  {
    var u := Upper(sqlType);
    if Contains(u, "INT") {
      var n: int :| 1 <= n <= 10000;
      v := IntValue(n);
    } else if Contains(u, "CHAR") || Contains(u, "TEXT") {
      var s := RandomString(12);
      v := TextValue(s);
    } else if Contains(u, "DATE") || Contains(u, "TIME") {
      if Contains(u, "DATETIME") || Contains(u, "TIMESTAMP") {
        SomeDateTime();
        var now: string :| DateTimeShape(now);
        v := TextValue(now);
      } else {
        SomeDate();
        var today: string :| DateShape(today);
        v := TextValue(today);
      }
    } else {
      var s := RandomString(8);
      v := TextValue(s);
    }
  }

  lemma {:induction false} SomeDate()
    ensures exists s :: DateShape(s)
  {
    assert DateShape("2000-01-01");
  }

  lemma {:induction false} SomeDateTime()
    ensures exists s :: DateTimeShape(s)
  {
    var s := "2000-01-01 00:00:00";
    assert s[..10] == "2000-01-01";
    assert DateShape(s[..10]);
    assert DateTimeShape(s);
  }

  /** random_string(n) */
  method RandomString(n: nat) returns (s: string)
    ensures AlnumText(s, n)
  {
    assert AlnumText(seq(n, _ => 'a'), n);
    s :| AlnumText(s, n);
  }

  /** The set of keys in a list. */
  function Elems(ks: seq<int>): set<int> {
    set k | k in ks
  }

  /** The tables the generator fills: a positive count, known to the schema, with a primary key. */
  predicate Eligible(st: ScenarioTable, schema: Schema) {
    st.count > 0 && st.name in schema && Truthy(schema[st.name].primaryKey)
  }

  /** n consecutive keys from start. */
  function Range(start: int, n: nat): (r: seq<int>)
    ensures |r| == n && forall k :: 0 <= k < n ==> r[k] == start + k
  {
    seq(n, k => start + k)
  }

  function StartOf(next: map<string, int>, t: string): int {
    if t in next then next[t] else 0
  }

  /** The ledger entry of an eligible scenario table. */
  function PlanEntry(st: ScenarioTable, next: map<string, int>): TableKeys
    requires st.count >= 0
  {
    TableKeys(st.name, Range(StartOf(next, st.name), st.count))
  }

  /**
   * The ledger a successful run records: for each eligible table, in scenario order,
   * `count` consecutive keys from the table's AUTO_INCREMENT counter at the start.
   */
  function Planned(scenario: Scenario, schema: Schema, next: map<string, int>): Ledger
    decreases |scenario|
  {
    if scenario == [] then []
    else
      var st := scenario[|scenario| - 1];
      Planned(scenario[..|scenario| - 1], schema, next)
        + (if Eligible(st, schema) then [PlanEntry(st, next)] else [])
  }

  /** The committed keys after the ledger's rows were added. */
  function Added(committed: map<string, set<int>>, ledger: Ledger): (r: map<string, set<int>>)
    ensures r.Keys == committed.Keys
  {
    map t | t in committed :: committed[t] + Elems(KeysFor(ledger, t))
  }

  /**
   * The INSERTs of one table of a run, built on the ledger `done` of the tables filled
   * before it: the m-th row goes into st's table, gets the m-th key, and fits the table
   * with its relation values drawn from `done` and the first m keys of this table.
   */
  predicate TableRows(rows: seq<Insertion>, done: Ledger, st: ScenarioTable, table: Table, keys: seq<int>) {
    && |rows| == |keys|
    && forall m :: 0 <= m < |rows| ==>
      && rows[m].table == st.name && rows[m].key == keys[m]
      && RowFits(table.columns, st.relations, done + [TableKeys(st.name, keys[..m])], rows[m].columns, rows[m].values)
  }

  /** One more row, built on the ledger as it stood just before it, with the next key. */
  lemma {:induction false} TableRowsSnoc(rows: seq<Insertion>, done: Ledger, st: ScenarioTable, table: Table,
                                         keys: seq<int>, row: Insertion)
    requires TableRows(rows, done, st, table, keys)
    requires row.table == st.name
    requires RowFits(table.columns, st.relations, done + [TableKeys(st.name, keys)], row.columns, row.values)
    ensures TableRows(rows + [row], done, st, table, keys + [row.key])
  {
    var rows', keys' := rows + [row], keys + [row.key];
    forall m | 0 <= m < |rows'|
      ensures rows'[m].table == st.name && rows'[m].key == keys'[m]
      ensures RowFits(table.columns, st.relations, done + [TableKeys(st.name, keys'[..m])], rows'[m].columns, rows'[m].values)
    {
      if m < |rows| {
        assert rows'[m] == rows[m] && keys'[..m] == keys[..m];
      } else {
        assert rows'[m] == row && keys'[..m] == keys;
      }
    }
  }

  /**
   * The INSERTs a successful run carries out, in order: for each eligible scenario table,
   * in scenario order, its `count` rows with the keys of its planned entry, each built on
   * the ledger of the rows inserted before it.
   */
  predicate RunRows(rows: seq<Insertion>, scenario: Scenario, schema: Schema, next: map<string, int>)
    decreases |scenario|
  {
    if scenario == [] then rows == []
    else
      var i := |scenario| - 1;
      var st := scenario[i];
      if !Eligible(st, schema) then RunRows(rows, scenario[..i], schema, next)
      else
        st.count <= |rows| &&
        var cut := |rows| - st.count;
        && RunRows(rows[..cut], scenario[..i], schema, next)
        && TableRows(rows[cut..], Planned(scenario[..i], schema, next), st, schema[st.name], PlanEntry(st, next).keys)
  }

  /** The rows of the i-th scenario table follow those of the tables before it. */
  lemma {:induction false} RunRowsStep(rows: seq<Insertion>, more: seq<Insertion>, scenario: Scenario, i: nat,
                                       schema: Schema, next: map<string, int>)
    requires i < |scenario| && RunRows(rows, scenario[..i], schema, next)
    requires Eligible(scenario[i], schema) ==>
      TableRows(more, Planned(scenario[..i], schema, next), scenario[i], schema[scenario[i].name], PlanEntry(scenario[i], next).keys)
    requires !Eligible(scenario[i], schema) ==> more == []
    ensures RunRows(rows + more, scenario[..i + 1], schema, next)
  {
    var s := scenario[..i + 1];
    assert s[..i] == scenario[..i] && s[i] == scenario[i];
    var all := rows + more;
    if Eligible(scenario[i], schema) {
      assert all[..|rows|] == rows && all[|rows|..] == more;
    } else {
      assert all == rows;
    }
  }

  /** The (table, key) pairs of a ledger, entry by entry and key by key. */
  function Flat(ledger: Ledger): seq<(string, int)>
    decreases |ledger|
  {
    if ledger == [] then []
    else Flat(ledger[..|ledger| - 1]) + EntryPairs(ledger[|ledger| - 1])
  }

  function EntryPairs(e: TableKeys): (r: seq<(string, int)>)
    ensures |r| == |e.keys| && forall m :: 0 <= m < |r| ==> r[m] == (e.table, e.keys[m])
  {
    seq(|e.keys|, m requires 0 <= m < |e.keys| => (e.table, e.keys[m]))
  }

  /** The (table, key) pairs of some INSERTs, in order. */
  function Pairs(rows: seq<Insertion>): (r: seq<(string, int)>)
    ensures |r| == |rows| && forall m :: 0 <= m < |r| ==> r[m] == (rows[m].table, rows[m].key)
  {
    seq(|rows|, m requires 0 <= m < |rows| => (rows[m].table, rows[m].key))
  }

  /** A run's INSERTs are exactly its log's keys, in the log's order: one INSERT per recorded key. */
  lemma {:induction false} RunRowsFollowLedger(rows: seq<Insertion>, scenario: Scenario, schema: Schema, next: map<string, int>)
    requires RunRows(rows, scenario, schema, next)
    ensures Pairs(rows) == Flat(Planned(scenario, schema, next))
    decreases |scenario|
  {
    if scenario == [] {
      assert Planned(scenario, schema, next) == [];
    } else {
      var i := |scenario| - 1;
      var st := scenario[i];
      var p := Planned(scenario[..i], schema, next);
      if !Eligible(st, schema) {
        RunRowsFollowLedger(rows, scenario[..i], schema, next);
        assert Planned(scenario, schema, next) == p + [];
        assert p + [] == p;
      } else {
        var cut := |rows| - st.count;
        RunRowsFollowLedger(rows[..cut], scenario[..i], schema, next);
        var e := PlanEntry(st, next);
        var ps := p + [e];
        assert Planned(scenario, schema, next) == ps;
        assert ps[..|ps| - 1] == p && ps[|ps| - 1] == e;
        assert Pairs(rows[cut..]) == EntryPairs(e);
        assert rows == rows[..cut] + rows[cut..];
        assert Pairs(rows) == Pairs(rows[..cut]) + Pairs(rows[cut..]);
      }
    }
  }

  /**
   * One INSERT: a row built from the ledger so far, with one placeholder per value. The
   * server's journal gains that row with the key it assigned.
   */
  method InsertRow(db: Server, table: Table, st: ScenarioTable, pool: Ledger)
    returns (r: Result<int, string>, ghost row: Insertion)
    requires db.Valid()
    modifies db
    ensures db.Valid() && db.committed == old(db.committed)
    ensures r.Ok? ==> st.name in old(db.pending) && r.value == old(db.nextId)[st.name]
    ensures r.Ok? ==> db.pending == old(db.pending)[st.name := old(db.pending)[st.name] + {r.value}]
    ensures r.Ok? ==> db.nextId == old(db.nextId)[st.name := r.value + 1]
    ensures r.Ok? ==> RelationsReadable(table.columns, st.relations)
    ensures r.Ok? ==> db.inserts == old(db.inserts) + [row] && row.table == st.name && row.key == r.value
    ensures r.Ok? ==> RowFits(table.columns, st.relations, pool, row.columns, row.values)
    ensures r.Err? ==> db.pending == old(db.pending) && db.nextId == old(db.nextId)
  {
    var built := BuildRowValues(table, st, pool);
    if built.Err? {
      return Err(built.error), Insertion(st.name, [], [], 0);
    }
    var names, values := built.value.0, built.value.1;
    var placeholders := Placeholders(|values|);
    PlaceholderCount(|values|);
    r := db.Insert(st.name, names, placeholders, values);
    row := Insertion(st.name, names, values, if r.Ok? then r.value else 0);
  }

  /**
   * The server's pending keys and counters after the first n rows of table t went in,
   * starting from pending p0 and counters q0 with t's counter at n0. Inserting into a
   * table the server does not have fails, so then nothing has changed.
   */
  ghost predicate FilledSoFar(pending: map<string, set<int>>, next: map<string, int>,
                              p0: map<string, set<int>>, q0: map<string, int>, t: string, n0: int, n: nat)
  {
    && (t in p0 ==> pending == p0[t := p0[t] + Elems(Range(n0, n))] && next == q0[t := n0 + n])
    && (t !in p0 ==> pending == p0 && next == q0 && n == 0)
  }

  lemma {:induction false} FilledNothing(p0: map<string, set<int>>, q0: map<string, int>, t: string, n0: int)
    requires t in p0 ==> t in q0 && n0 == q0[t]
    ensures FilledSoFar(p0, q0, p0, q0, t, n0, 0)
  {
    if t in p0 {
      assert Elems(Range(n0, 0)) == {};
      assert p0[t] + {} == p0[t];
      assert p0[t := p0[t] + {}] == p0;
      assert q0[t := n0 + 0] == q0;
    }
  }

  /** One more row: the key it got is the next one of the range. */
  lemma {:induction false} FilledStep(pending: map<string, set<int>>, next: map<string, int>,
                                      p0: map<string, set<int>>, q0: map<string, int>, t: string, n0: int, n: nat, key: int)
    requires FilledSoFar(pending, next, p0, q0, t, n0, n)
    requires t in pending && t in next && key == next[t]
    ensures t in p0 && key == n0 + n
    ensures Range(n0, n) + [key] == Range(n0, n + 1)
    ensures FilledSoFar(pending[t := pending[t] + {key}], next[t := key + 1], p0, q0, t, n0, n + 1)
  {
    assert t in p0;
    assert Range(n0, n) + [key] == Range(n0, n + 1);
    var before := p0[t] + Elems(Range(n0, n));
    assert pending[t] == before;
    assert before + {key} == p0[t] + Elems(Range(n0, n + 1));
    assert pending[t := before + {key}] == p0[t := before + {key}];
    assert next[t := key + 1] == q0[t := n0 + (n + 1)];
  }

  /** The next INSERT of FillTable: the next key of the range goes in, built on the ledger so far. */
  method FillNext(db: Server, table: Table, st: ScenarioTable, done: Ledger, keys: seq<int>,
                  ghost rows: seq<Insertion>, ghost i0: seq<Insertion>,
                  ghost p0: map<string, set<int>>, ghost q0: map<string, int>, ghost n0: int, ghost n: nat)
    returns (key: Result<int, string>, ghost rows': seq<Insertion>)
    requires db.Valid()
    requires FilledSoFar(db.pending, db.nextId, p0, q0, st.name, n0, n) && keys == Range(n0, n)
    requires db.inserts == i0 + rows && TableRows(rows, done, st, table, keys)
    modifies db
    ensures db.Valid() && db.committed == old(db.committed)
    ensures key.Ok? ==> RelationsReadable(table.columns, st.relations)
    ensures key.Ok? ==> keys + [key.value] == Range(n0, n + 1)
    ensures key.Ok? ==> FilledSoFar(db.pending, db.nextId, p0, q0, st.name, n0, n + 1)
    ensures key.Ok? ==> db.inserts == i0 + rows' && TableRows(rows', done, st, table, keys + [key.value])
  {
    var pool := done + [TableKeys(st.name, keys)];
    ghost var pending, next := db.pending, db.nextId;
    ghost var row;
    key, row := InsertRow(db, table, st, pool);
    rows' := rows + [row];
    if key.Ok? {
      FilledStep(pending, next, p0, q0, st.name, n0, n, key.value);
      TableRowsSnoc(rows, done, st, table, keys, row);
      assert db.inserts == i0 + rows';
    }
  }

  /** The `count` INSERTs into one table, appending each new key to its ledger entry. */
  method FillTable(db: Server, table: Table, st: ScenarioTable, done: Ledger)
    returns (r: Result<seq<int>, string>, ghost rows: seq<Insertion>)
    requires db.Valid() && st.count > 0
    modifies db
    ensures db.Valid() && db.committed == old(db.committed)
    ensures r.Ok? ==> st.name in old(db.pending) && RelationsReadable(table.columns, st.relations)
    ensures r.Ok? ==> r.value == Range(old(db.nextId)[st.name], st.count)
    ensures r.Ok? ==> db.pending == old(db.pending)[st.name := old(db.pending)[st.name] + Elems(r.value)]
    ensures r.Ok? ==> db.nextId == old(db.nextId)[st.name := old(db.nextId)[st.name] + st.count]
    ensures r.Ok? ==> db.inserts == old(db.inserts) + rows && TableRows(rows, done, st, table, r.value)
  {
    var keys: seq<int> := [];
    rows := [];
    ghost var i0, p0, q0 := db.inserts, db.pending, db.nextId;
    ghost var n0 := StartOf(db.nextId, st.name);
    FilledNothing(p0, q0, st.name, n0);
    assert i0 + rows == i0;
    var n := 0;
    while n < st.count
      invariant 0 <= n <= st.count
      invariant db.Valid() && db.committed == old(db.committed)
      invariant n > 0 ==> RelationsReadable(table.columns, st.relations)
      invariant FilledSoFar(db.pending, db.nextId, p0, q0, st.name, n0, n) && keys == Range(n0, n)
      invariant db.inserts == i0 + rows && TableRows(rows, done, st, table, keys)
    {
      var key;
      key, rows := FillNext(db, table, st, done, keys, rows, i0, p0, q0, n0, n);
      if key.Err? {
        return Err(key.error), rows;
      }
      keys := keys + [key.value];
      n := n + 1;
    }
    assert n == st.count > 0;
    assert st.name in p0 && n0 == q0[st.name];
    r := Ok(keys);
  }

  /**
   * generate_and_insert: fills the scenario's eligible tables in scenario order in one
   * transaction, commits, and returns the run log; on any error rolls back and fails.
   * The clock readings and the profile and scenario names are parameters.
   */
  method GenerateAndInsert(db: Server, schema: Schema, scenario: Scenario,
                           runId: string, createdAt: string, profile: string, scenarioName: string)
    returns (r: Result<RunLogEntry, string>, ghost rows: seq<Insertion>)
    requires db.Valid() && db.pending == db.committed && DistinctNames(scenario)
    modifies db
    ensures db.Valid() && db.pending == db.committed
    ensures r.Err? ==> db.committed == old(db.committed)
    ensures r.Ok? ==> r.value == RunLogEntry(runId, createdAt, profile, scenarioName, Planned(scenario, schema, old(db.nextId)))
    ensures r.Ok? ==> db.committed == Added(old(db.committed), r.value.insertedRows)
    ensures r.Ok? ==> Ready(scenario, schema, old(db.committed))
    ensures r.Ok? ==> db.inserts == old(db.inserts) + rows && RunRows(rows, scenario, schema, old(db.nextId))
  {
    ghost var c0, next0, ins0 := db.committed, db.nextId, db.inserts;
    var done: Ledger := [];
    AddedNothing(c0);
    rows := [];
    assert scenario[..0] == [] && ins0 + rows == ins0;
    var i := 0;
    while i < |scenario|
      invariant 0 <= i <= |scenario|
      invariant db.Valid() && db.committed == c0
      invariant Progress(db.pending, db.nextId, c0, next0, scenario, schema, i, done)
      invariant db.inserts == ins0 + rows && RunRows(rows, scenario[..i], schema, next0)
    {
      var step;
      step, rows := ProvisionTable(db, schema, scenario, i, done, c0, next0, ins0, rows);
      if step.Err? {
        db.Rollback();
        return Err(step.error), rows;
      }
      done := step.value;
      i := i + 1;
    }
    db.Commit();
    assert scenario[..i] == scenario;
    r := Ok(RunLogEntry(runId, createdAt, profile, scenarioName, done));
  }

  /**
   * The state of generate_and_insert after the first i scenario tables: the ledger is the
   * planned one, the open transaction holds exactly its keys, the other tables' counters
   * are untouched, and every table filled so far could read the keys its relations needed.
   */
  ghost predicate Progress(pending: map<string, set<int>>, nextId: map<string, int>,
                           c0: map<string, set<int>>, next0: map<string, int>,
                           scenario: Scenario, schema: Schema, i: nat, done: Ledger)
  {
    && i <= |scenario|
    && done == Planned(scenario[..i], schema, next0)
    && pending == Added(c0, done)
    && Untouched(nextId, next0, scenario[..i])
    && Ready(scenario[..i], schema, c0)
  }

  /** One turn of the scenario loop: skips the i-th table or fills it, extending the ledger. */
  method ProvisionTable(db: Server, schema: Schema, scenario: Scenario, i: nat, done: Ledger,
                        ghost c0: map<string, set<int>>, ghost next0: map<string, int>,
                        ghost ins0: seq<Insertion>, ghost rows0: seq<Insertion>)
    returns (r: Result<Ledger, string>, ghost rows: seq<Insertion>)
    requires i < |scenario| && DistinctNames(scenario)
    requires db.Valid() && db.committed == c0 && next0.Keys == c0.Keys
    requires Progress(db.pending, db.nextId, c0, next0, scenario, schema, i, done)
    requires db.inserts == ins0 + rows0 && RunRows(rows0, scenario[..i], schema, next0)
    modifies db
    ensures db.Valid() && db.committed == c0
    ensures r.Ok? ==> Progress(db.pending, db.nextId, c0, next0, scenario, schema, i + 1, r.value)
    ensures r.Ok? ==> db.inserts == ins0 + rows && RunRows(rows, scenario[..i + 1], schema, next0)
  {
    var st := scenario[i];
    if st.count <= 0 || st.name !in schema || !Truthy(schema[st.name].primaryKey) {
      PlannedStep(scenario, i, schema, next0);
      assert scenario[..i + 1] == scenario[..i] + [st];
      UntouchedSkip(db.nextId, next0, scenario[..i], st);
      ReadyStep(scenario[..i], st, schema, c0);
      RunRowsStep(rows0, [], scenario, i, schema, next0);
      assert rows0 + [] == rows0;
      return Ok(done), rows0;
    }
    r, rows := FillScenarioTable(db, schema, scenario, i, done, c0, next0, ins0, rows0);
  }

  /** The filling half of ProvisionTable, for an eligible i-th table. */
  method FillScenarioTable(db: Server, schema: Schema, scenario: Scenario, i: nat, done: Ledger,
                           ghost c0: map<string, set<int>>, ghost next0: map<string, int>,
                           ghost ins0: seq<Insertion>, ghost rows0: seq<Insertion>)
    returns (r: Result<Ledger, string>, ghost rows: seq<Insertion>)
    requires i < |scenario| && DistinctNames(scenario) && Eligible(scenario[i], schema)
    requires db.Valid() && db.committed == c0 && next0.Keys == c0.Keys
    requires Progress(db.pending, db.nextId, c0, next0, scenario, schema, i, done)
    requires db.inserts == ins0 + rows0 && RunRows(rows0, scenario[..i], schema, next0)
    modifies db
    ensures db.Valid() && db.committed == c0
    ensures r.Ok? ==> Progress(db.pending, db.nextId, c0, next0, scenario, schema, i + 1, r.value)
    ensures r.Ok? ==> db.inserts == ins0 + rows && RunRows(rows, scenario[..i + 1], schema, next0)
  {
    var st := scenario[i];
    ghost var pendingBefore, nextBefore, insBefore := db.pending, db.nextId, db.inserts;
    var filled;
    ghost var more;
    filled, more := FillTable(db, schema[st.name], st, done);
    if filled.Err? {
      return Err(filled.error), rows0;
    }
    FillProgress(pendingBefore, nextBefore, db.pending, db.nextId, c0, next0, scenario, schema, i, done, filled.value);
    RunRowsStep(rows0, more, scenario, i, schema, next0);
    rows := rows0 + more;
    JournalGrows(ins0, rows0, more);
    r := Ok(done + [TableKeys(st.name, filled.value)]);
  }

  lemma {:induction false} JournalGrows(ins0: seq<Insertion>, rows0: seq<Insertion>, more: seq<Insertion>)
    ensures (ins0 + rows0) + more == ins0 + (rows0 + more)
  {
  }

  /** The state after FillTable filled the i-th scenario table is the state Progress expects. */
  lemma {:induction false} FillProgress(pendingBefore: map<string, set<int>>, nextBefore: map<string, int>,
                                        pending: map<string, set<int>>, nextId: map<string, int>,
                                        c0: map<string, set<int>>, next0: map<string, int>,
                                        scenario: Scenario, schema: Schema, i: nat, done: Ledger, keys: seq<int>)
    requires i < |scenario| && DistinctNames(scenario) && next0.Keys == c0.Keys
    requires Progress(pendingBefore, nextBefore, c0, next0, scenario, schema, i, done)
    requires Eligible(scenario[i], schema)
    requires scenario[i].name in pendingBefore && RelationsReadable(schema[scenario[i].name].columns, scenario[i].relations)
    requires scenario[i].name in nextBefore && keys == Range(nextBefore[scenario[i].name], scenario[i].count)
    requires pending == pendingBefore[scenario[i].name := pendingBefore[scenario[i].name] + Elems(keys)]
    requires nextId == nextBefore[scenario[i].name := nextBefore[scenario[i].name] + scenario[i].count]
    ensures Progress(pending, nextId, c0, next0, scenario, schema, i + 1, done + [TableKeys(scenario[i].name, keys)])
  {
    var st := scenario[i];
    var ledger := done + [TableKeys(st.name, keys)];
    assert scenario[..i + 1] == scenario[..i] + [st];
    assert st.name in c0;
    assert ledger == Planned(scenario[..i + 1], schema, next0) by {
      PlannedStep(scenario, i, schema, next0);
      UntouchedAt(nextBefore, next0, scenario, i);
      assert TableKeys(st.name, keys) == PlanEntry(st, next0);
    }
    assert pending == Added(c0, ledger) by {
      NotYetPlanned(scenario, i, schema, next0);
      AddedSnoc(c0, done, st.name, keys);
    }
    assert Untouched(nextId, next0, scenario[..i + 1]) by {
      UntouchedFill(nextBefore, nextId, next0, scenario[..i], st);
    }
    assert Ready(scenario[..i + 1], schema, c0) by {
      ReadyStep(scenario[..i], st, schema, c0);
    }
  }

  lemma {:induction false} ReadyStep(filled: Scenario, st: ScenarioTable, schema: Schema, committed: map<string, set<int>>)
    requires Ready(filled, schema, committed)
    requires Eligible(st, schema) ==> st.name in committed && RelationsReadable(schema[st.name].columns, st.relations)
    ensures Ready(filled + [st], schema, committed)
  {
    assert forall j :: 0 <= j < |filled| ==> filled[j] == (filled + [st])[j];
  }

  /** The AUTO_INCREMENT counters of the tables not yet filled are as they were at the start. */
  predicate Untouched(nextId: map<string, int>, next0: map<string, int>, filled: Scenario) {
    forall u :: u in next0 && (forall j :: 0 <= j < |filled| ==> filled[j].name != u) ==> u in nextId && nextId[u] == next0[u]
  }

  /** Every eligible table exists and has readable relations. */
  predicate Ready(scenario: Scenario, schema: Schema, committed: map<string, set<int>>) {
    forall j :: 0 <= j < |scenario| && Eligible(scenario[j], schema) ==>
      scenario[j].name in committed && RelationsReadable(schema[scenario[j].name].columns, scenario[j].relations)
  }

  lemma {:induction false} UntouchedAt(nextId: map<string, int>, next0: map<string, int>, scenario: Scenario, i: nat)
    requires i < |scenario| && DistinctNames(scenario)
    requires Untouched(nextId, next0, scenario[..i]) && scenario[i].name in next0
    ensures scenario[i].name in nextId && nextId[scenario[i].name] == next0[scenario[i].name]
  {
    assert forall j :: 0 <= j < i ==> scenario[..i][j] == scenario[j];
  }

  lemma {:induction false} UntouchedSkip(nextId: map<string, int>, next0: map<string, int>, filled: Scenario, st: ScenarioTable)
    requires Untouched(nextId, next0, filled)
    ensures Untouched(nextId, next0, filled + [st])
  {
    forall u | u in next0 && (forall j :: 0 <= j < |filled + [st]| ==> (filled + [st])[j].name != u)
      ensures u in nextId && nextId[u] == next0[u]
    {
      assert forall j :: 0 <= j < |filled| ==> filled[j] == (filled + [st])[j];
    }
  }

  lemma {:induction false} UntouchedFill(before: map<string, int>, after: map<string, int>, next0: map<string, int>, filled: Scenario, st: ScenarioTable)
    requires Untouched(before, next0, filled)
    requires st.name in after && after == before[st.name := after[st.name]]
    ensures Untouched(after, next0, filled + [st])
  {
    forall u | u in next0 && (forall j :: 0 <= j < |filled + [st]| ==> (filled + [st])[j].name != u)
      ensures u in after && after[u] == next0[u]
    {
      assert forall j :: 0 <= j < |filled| ==> filled[j] == (filled + [st])[j];
      assert (filled + [st])[|filled|] == st;
    }
  }

  lemma {:induction false} PlannedStep(scenario: Scenario, i: nat, schema: Schema, next: map<string, int>)
    requires i < |scenario|
    ensures Planned(scenario[..i + 1], schema, next) == Planned(scenario[..i], schema, next) +
      (if Eligible(scenario[i], schema) then [PlanEntry(scenario[i], next)] else [])
  {
    assert scenario[..i + 1][..i] == scenario[..i];
  }

  /** Every entry of the planned ledger is the entry of an eligible scenario table. */
  lemma {:induction false} PlannedFrom(scenario: Scenario, schema: Schema, next: map<string, int>)
    ensures forall e :: e in Planned(scenario, schema, next) ==>
      exists j :: 0 <= j < |scenario| && Eligible(scenario[j], schema) && e == PlanEntry(scenario[j], next)
    decreases |scenario|
  {
    if scenario != [] {
      var n := |scenario| - 1;
      var init := scenario[..n];
      PlannedFrom(init, schema, next);
      var p := Planned(init, schema, next);
      var ps := Planned(scenario, schema, next);
      assert ps == p + (if Eligible(scenario[n], schema) then [PlanEntry(scenario[n], next)] else []);
      forall e | e in ps
        ensures exists j :: 0 <= j < |scenario| && Eligible(scenario[j], schema) && e == PlanEntry(scenario[j], next)
      {
        if e in p {
          var j :| 0 <= j < |init| && Eligible(init[j], schema) && e == PlanEntry(init[j], next);
          assert init[j] == scenario[j];
        } else {
          assert e == PlanEntry(scenario[n], next);
        }
      }
    } else {
      assert Planned(scenario, schema, next) == [];
    }
  }

  /** Every eligible scenario table has an entry in the planned ledger. */
  lemma {:induction false} PlannedCovers(scenario: Scenario, schema: Schema, next: map<string, int>)
    ensures forall j :: 0 <= j < |scenario| && Eligible(scenario[j], schema) ==>
      exists k :: 0 <= k < |Planned(scenario, schema, next)| && Planned(scenario, schema, next)[k] == PlanEntry(scenario[j], next)
    decreases |scenario|
  {
    if scenario != [] {
      var n := |scenario| - 1;
      var init := scenario[..n];
      PlannedCovers(init, schema, next);
      var p := Planned(init, schema, next);
      var ps := Planned(scenario, schema, next);
      assert ps == p + (if Eligible(scenario[n], schema) then [PlanEntry(scenario[n], next)] else []);
      forall j | 0 <= j < |scenario| && Eligible(scenario[j], schema)
        ensures exists k :: 0 <= k < |ps| && ps[k] == PlanEntry(scenario[j], next)
      {
        if j < n {
          assert init[j] == scenario[j];
          assert Eligible(init[j], schema);
          var k :| 0 <= k < |p| && p[k] == PlanEntry(init[j], next);
          assert ps[k] == p[k];
        } else {
          assert ps[|p|] == PlanEntry(scenario[n], next);
        }
      }
      assert Planned(scenario, schema, next) == ps;
    } else {
      assert Planned(scenario, schema, next) == [];
    }
  }

  lemma {:induction false} NotYetPlanned(scenario: Scenario, i: nat, schema: Schema, next: map<string, int>)
    requires i < |scenario| && DistinctNames(scenario)
    ensures forall k :: 0 <= k < |Planned(scenario[..i], schema, next)| ==> Planned(scenario[..i], schema, next)[k].table != scenario[i].name
  {
    var p := Planned(scenario[..i], schema, next);
    PlannedFrom(scenario[..i], schema, next);
    forall k | 0 <= k < |p| ensures p[k].table != scenario[i].name {
      assert p[k] in p;
      var j :| 0 <= j < i && Eligible(scenario[..i][j], schema) && p[k] == PlanEntry(scenario[..i][j], next);
      assert scenario[..i][j] == scenario[j];
    }
  }

  lemma {:induction false} KeysForSnoc(ledger: Ledger, t: string, ks: seq<int>, u: string)
    requires forall k :: 0 <= k < |ledger| ==> ledger[k].table != t
    ensures KeysFor(ledger + [TableKeys(t, ks)], u) == if u == t then ks else KeysFor(ledger, u)
  {
    if ledger != [] {
      assert (ledger + [TableKeys(t, ks)])[1..] == ledger[1..] + [TableKeys(t, ks)];
      KeysForSnoc(ledger[1..], t, ks, u);
    }
  }

  lemma {:induction false} AddedSnoc(committed: map<string, set<int>>, ledger: Ledger, t: string, ks: seq<int>)
    requires t in committed
    requires forall k :: 0 <= k < |ledger| ==> ledger[k].table != t
    ensures Added(committed, ledger + [TableKeys(t, ks)]) == Added(committed, ledger)[t := Added(committed, ledger)[t] + Elems(ks)]
  {
    var a := Added(committed, ledger + [TableKeys(t, ks)]);
    var b := Added(committed, ledger)[t := Added(committed, ledger)[t] + Elems(ks)];
    forall u | u in committed ensures a[u] == b[u] {
      KeysForSnoc(ledger, t, ks, u);
      if u == t {
        KeysForFound(ledger, t);
        assert Elems([]) == {};
        assert a[u] == committed[t] + Elems(ks);
      } else {
        assert a[u] == committed[u] + Elems(KeysFor(ledger, u));
      }
    }
    assert a.Keys == b.Keys;
  }

  /** Adding an empty ledger changes nothing. */
  lemma {:induction false} AddedNothing(committed: map<string, set<int>>)
    ensures Added(committed, []) == committed
  {
    forall u | u in committed ensures Added(committed, [])[u] == committed[u] {
      assert Elems(KeysFor([], u)) == {};
    }
  }

  /** One entry per table: the planned ledger of a scenario with distinct names has distinct tables. */
  lemma {:induction false} PlannedDistinct(scenario: Scenario, schema: Schema, next: map<string, int>)
    requires DistinctNames(scenario)
    ensures DistinctTables(Planned(scenario, schema, next))
    decreases |scenario|
  {
    if scenario != [] {
      var n := |scenario| - 1;
      var init := scenario[..n];
      assert DistinctNames(init) by {
        assert forall j :: 0 <= j < n ==> init[j] == scenario[j];
      }
      PlannedDistinct(init, schema, next);
      NotYetPlanned(scenario, n, schema, next);
    } else {
      assert Planned(scenario, schema, next) == [];
    }
  }

  /** The planned keys of a table lie at or above its counter, so none of them is an existing key. */
  lemma {:induction false} PlannedKeysFresh(scenario: Scenario, schema: Schema, next: map<string, int>, committed: map<string, set<int>>, t: string)
    requires t in committed && t in next && Below(committed[t], next[t])
    ensures committed[t] !! Elems(KeysFor(Planned(scenario, schema, next), t))
  {
    var ks := KeysFor(Planned(scenario, schema, next), t);
    PlannedFrom(scenario, schema, next);
    KeysForFound(Planned(scenario, schema, next), t);
    if ks != [] {
      var i :| 0 <= i < |Planned(scenario, schema, next)| && Planned(scenario, schema, next)[i] == TableKeys(t, ks);
      assert TableKeys(t, ks) in Planned(scenario, schema, next);
      forall k | k in ks ensures k >= next[t] {
      }
    }
  }
}
