/**
 * Turning a parsed scenario.json document into the scenario the generator runs
 * (ScenarioLoader.load, after json.load).
 */
module Scenarios {
  import opened Results
  import opened Numbers

  /** The JSON value found under "count": the kinds int() accepts, null, and everything else. */
  datatype CountValue = IntCount(i: int) | BoolCount(b: bool) | TextCount(s: string) | NullCount | OtherCount

  /**
   * One entry of the "tables" object: its "count" member when present (null included), and
   * its "relations" member when present and not null.
   */
  datatype RawTable = RawTable(count: Option<CountValue>, relations: Option<map<string, string>>)

  /** column name -> "parent_table.parent_key" */
  type Relations = map<string, string>

  datatype ScenarioTable = ScenarioTable(name: string, count: int, relations: Relations)

  /** The scenario tables in the order the document lists them. */
  type Scenario = seq<ScenarioTable>

  predicate DistinctNames(s: Scenario) {
    forall i, j :: 0 <= i < j < |s| ==> s[i].name != s[j].name
  }

  predicate DistinctKeys(raw: seq<(string, RawTable)>) {
    forall i, j :: 0 <= i < j < |raw| ==> raw[i].0 != raw[j].0
  }

  /** int(tinfo.get("count", 0)), or None where int() raises: a null count is int(None). */
  function CountOf(c: Option<CountValue>): Option<int> {
    match c
    case None => Some(0)
    case Some(IntCount(i)) => Some(i)
    case Some(BoolCount(b)) => Some(if b then 1 else 0)
    case Some(TextCount(s)) => ParseInt(s)
    case Some(NullCount) => None
    case Some(OtherCount) => None
  }

  /** tinfo.get("relations", {}) or {} */
  function RelationsOf(r: Option<Relations>): Relations {
    if r.None? then map[] else r.value
  }

  /** The scenario entry a raw entry becomes, or None when its count cannot be read. */
  function Entry(name: string, raw: RawTable): (r: Option<ScenarioTable>)
    ensures raw.count.None? ==> r == Some(ScenarioTable(name, 0, RelationsOf(raw.relations)))
    ensures r.Some? <==> CountOf(raw.count).Some?
    ensures r.Some? ==> r.value.name == name && r.value.count == CountOf(raw.count).value
    ensures r.Some? ==> (raw.relations.None? ==> r.value.relations == map[])
    ensures r.Some? ==> (raw.relations.Some? ==> r.value.relations == raw.relations.value)
  {
    var count := CountOf(raw.count);
    if count.None? then None else Some(ScenarioTable(name, count.value, RelationsOf(raw.relations)))
  }

  /**
   * ScenarioLoader.load on the "tables" member (None when the document has none): one
   * scenario table per entry, in order, or an error when some count is not a number.
   */
  method Load(tables: Option<seq<(string, RawTable)>>) returns (r: Result<Scenario, string>)
    requires tables.Some? ==> DistinctKeys(tables.value)
    ensures tables.None? ==> r == Ok([])
    ensures tables.Some? ==> (r.Ok? <==> forall k :: 0 <= k < |tables.value| ==> CountOf(tables.value[k].1.count).Some?)
    ensures tables.Some? && r.Ok? ==> (|r.value| == |tables.value| &&
      forall k :: 0 <= k < |r.value| ==> Some(r.value[k]) == Entry(tables.value[k].0, tables.value[k].1))
    ensures r.Ok? ==> DistinctNames(r.value)
  {
    if tables.None? {
      return Ok([]);
    }
    var entries := tables.value;
    var result: Scenario := [];
    var i := 0;
    while i < |entries|
      invariant 0 <= i <= |entries| && |result| == i
      invariant forall k :: 0 <= k < i ==> Some(result[k]) == Entry(entries[k].0, entries[k].1)
      invariant forall k :: 0 <= k < i ==> CountOf(entries[k].1.count).Some?
    {
      var name := entries[i].0;
      var raw := entries[i].1;
      var count := CountOf(raw.count);
      if count.None? {
        return Err("invalid literal for int(): count of " + name);
      }
      result := result + [ScenarioTable(name, count.value, RelationsOf(raw.relations))];
      i := i + 1;
    }
    r := Ok(result);
  }

  /** A count written as a decimal string reads as that number. */
  lemma {:induction false} TextCountReads(n: nat)
    ensures CountOf(Some(TextCount(Decimal(n)))) == Some(n)
  {
    ParseIntOfDecimal(n);
  }
}
